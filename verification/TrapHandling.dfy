/** Trap entry and return on the hart's objects (interrupt.cpp and the trap-return, fence and
    satp handlers of csrtypeinsn.cpp). */
module TrapHandling {
  import opened Bits
  import opened CsrFile
  import opened PageTable
  import opened Hart
  import opened Traps
  import opened Interrupts
  import opened Emulator

  method SaveToSupervisor(csr: Csr, mode: Priv, pc: bv64, t: Trap)
    requires csr.Valid()
    modifies csr.regs
    ensures csr.View() == SupervisorEntry(old(csr.View()), mode, pc, t)
  {
    hide StoreCsr, LoadCsr, Bits.WriteBit, Bits.ReadBit, Even, CauseOf, ValueOf, Csr.View;
    csr.Store(SEPC, Even(pc));
    csr.Store(SCAUSE, CauseOf(t));
    csr.Store(STVAL, ValueOf(t));
    var sie := csr.ReadBit(SSTATUS, 1);
    csr.WriteBit(SSTATUS, 5, sie);
    csr.WriteBit(SSTATUS, 1, false);
    csr.WriteBit(SSTATUS, 8, ModeCode(mode) != 0);
  }

  method SaveToMachine(csr: Csr, mode: Priv, pc: bv64, t: Trap)
    requires csr.Valid()
    modifies csr.regs
    ensures csr.View() == MachineEntry(old(csr.View()), mode, pc, t)
  {
    hide StoreCsr, LoadCsr, Bits.WriteBit, Bits.ReadBit, Even, CauseOf, ValueOf, WriteMpp, Csr.View;
    csr.Store(MEPC, Even(pc));
    csr.Store(MCAUSE, CauseOf(t));
    csr.Store(MTVAL, ValueOf(t));
    var mie := csr.ReadBit(MSTATUS, 3);
    csr.WriteBit(MSTATUS, 7, mie);
    csr.WriteBit(MSTATUS, 3, false);
    csr.WriteMppMode(mode);
  }

  /** The common part of interrupt::process and exception::process. */
  method Process(cpu: Cpu, t: Trap)
    requires cpu.Valid()
    modifies cpu`pc, cpu`mode, cpu`sleep, cpu.csr.regs
    ensures cpu.View() == Enter(old(cpu.View()), t)
  {
    hide LoadCsr, SupervisorEntry, MachineEntry, CauseOf, ValueOf, Vector, Bits.ReadBit, ExceptionCode;
    cpu.sleep := false;
    var pc, mode := cpu.pc, cpu.mode;
    var delegated: bool;
    match t {
      case Interrupt(code) =>
        delegated := cpu.csr.ReadBit(MIDELEG, code);
        if code == MACHINE_TIMER {
          delegated := false;
        }
      case Fault(e, _) =>
        delegated := cpu.csr.ReadBit(MEDELEG, ExceptionCode(e));
    }
    if delegated && (mode == User || mode == Supervisor) {
      cpu.mode := Supervisor;
      var stvec := cpu.csr.Load(STVEC);
      cpu.pc := Vector(stvec, t);
      SaveToSupervisor(cpu.csr, mode, pc, t);
    } else {
      cpu.mode := Machine;
      var mtvec := cpu.csr.Load(MTVEC);
      cpu.pc := Vector(mtvec, t);
      SaveToMachine(cpu.csr, mode, pc, t);
    }
  }

  /** The tests of the global enable bits at the start of get_pending_interrupt. */
  method KeptOut(cpu: Cpu) returns (b: bool)
    requires cpu.Valid()
    ensures cpu.View() == old(cpu.View()) && b == Gated(cpu.View())
  {
    hide LoadCsr, Bits.ReadBit, StatusBits;
    ReadFields(cpu.csr.View());
    b := false;
    if cpu.mode == Machine {
      var mie := cpu.csr.ReadBit(MSTATUS, 3);
      b := !mie && !cpu.sleep;
    } else if cpu.mode == Supervisor {
      var sie := cpu.csr.ReadBit(SSTATUS, 1);
      b := !sie && !cpu.sleep;
    }
  }

  /** interrupt::get_pending_interrupt; `irq` tells whether the disk or the GPU raises its line. */
  method GetPendingInterrupt(cpu: Cpu, irq: bool) returns (c: Option<BitIndex>)
    requires cpu.Valid()
    modifies cpu.csr.regs
    ensures (cpu.View(), c) == Poll(old(cpu.View()), irq)
  {
    hide StoreCsr, LoadCsr, Bits.WriteBit, FirstPending, Gated;
    var gated := KeptOut(cpu);
    if gated {
      return None;
    }
    if irq {
      cpu.csr.WriteBit(MIP, SEIP, true);
    }
    c := TakeFirst(cpu.csr);
  }

  /** The cascade of tests at the end of get_pending_interrupt. */
  method TakeFirst(csr: Csr) returns (c: Option<BitIndex>)
    requires csr.Valid()
    modifies csr.regs
    ensures var r := old(csr.View());
            c == FirstPending(r, ORDER) && csr.View() == match c case None => r case Some(i) => Taken(r, i)
  {
    hide StoreCsr, LoadCsr, Bits.WriteBit, Bits.ReadBit, And, FirstPending;
    ghost var r := csr.View();
    InOrder(r);
    var mie := csr.Load(MIE);
    var mip := csr.Load(MIP);
    var pending := And(mie, mip);
    PendingBits(r);
    if pending == 0 {
      NothingPending(r);
      return None;
    }
    if Bits.ReadBit(pending, 11) {
      csr.WriteBit(MIP, 11, false);
      return Some(11);
    } else if Bits.ReadBit(pending, 3) {
      csr.WriteBit(MIP, 3, false);
      return Some(3);
    } else if Bits.ReadBit(pending, 7) {
      csr.WriteBit(MIP, 7, false);
      return Some(7);
    } else if Bits.ReadBit(pending, 9) {
      csr.WriteBit(MIP, 9, false);
      return Some(9);
    } else if Bits.ReadBit(pending, 1) {
      csr.WriteBit(MIP, 1, false);
      return Some(1);
    } else if Bits.ReadBit(pending, 5) {
      csr.WriteBit(MIP, 5, false);
      return Some(5);
    }
    return None;
  }

  /** The priority list, spelled out. */
  lemma InOrder(r: Regs)
    ensures FirstPending(r, ORDER) ==
            if IsPending(r, 11) then Some(11) else if IsPending(r, 3) then Some(3)
            else if IsPending(r, 7) then Some(7) else if IsPending(r, 9) then Some(9)
            else if IsPending(r, 1) then Some(1) else if IsPending(r, 5) then Some(5) else None
  {
    hide IsPending;
    assert ORDER[1..] == [3, 7, 9, 1, 5];
    assert ORDER[1..][1..] == [7, 9, 1, 5];
    assert ORDER[1..][1..][1..] == [9, 1, 5];
    assert ORDER[1..][1..][1..][1..] == [1, 5];
    assert ORDER[1..][1..][1..][1..][1..] == [5];
    assert FirstPending(r, [5]) == if IsPending(r, 5) then Some(5) else None;
    assert FirstPending(r, [1, 5]) == if IsPending(r, 1) then Some(1) else FirstPending(r, [5]);
    assert FirstPending(r, [9, 1, 5]) == if IsPending(r, 9) then Some(9) else FirstPending(r, [1, 5]);
    assert FirstPending(r, [7, 9, 1, 5]) == if IsPending(r, 7) then Some(7) else FirstPending(r, [9, 1, 5]);
  }

  lemma PendingBits(r: Regs)
    ensures forall i: BitIndex :: Bits.ReadBit(And(LoadCsr(r, MIE), LoadCsr(r, MIP)), i) == IsPending(r, i)
  {
    hide Bits.ReadBit, And, LoadCsr;
    forall i: BitIndex
      ensures Bits.ReadBit(And(LoadCsr(r, MIE), LoadCsr(r, MIP)), i) == IsPending(r, i)
    {
      MaskedAt(LoadCsr(r, MIE), LoadCsr(r, MIP), i);
    }
  }

  lemma NoBits(i: BitIndex)
    ensures !Bits.ReadBit(0, i)
  {}

  lemma NothingPending(r: Regs)
    requires And(LoadCsr(r, MIE), LoadCsr(r, MIP)) == 0
    ensures FirstPending(r, ORDER) == None
  {
    hide Bits.ReadBit, And, LoadCsr, IsPending, FirstPending;
    InOrder(r);
    PendingBits(r);
    forall i: BitIndex
      ensures !IsPending(r, i)
    {
      NoBits(i);
    }
  }

  method RestoreFromSupervisor(csr: Csr)
    requires csr.Valid()
    modifies csr.regs
    ensures csr.View() == SretRegs(old(csr.View()))
  {
    hide StoreCsr, LoadCsr, Bits.WriteBit, Bits.ReadBit, Csr.View;
    var spp := csr.ReadBit(SSTATUS, 8);
    if !spp {
      csr.WriteBit(MSTATUS, 17, false);
    }
    var spie := csr.ReadBit(SSTATUS, 5);
    csr.WriteBit(SSTATUS, 1, spie);
    csr.WriteBit(SSTATUS, 5, true);
    csr.WriteBit(SSTATUS, 8, false);
  }

  /** csr::sret. */
  method ReturnFromSupervisor(cpu: Cpu, insn: bv64)
    requires cpu.Valid()
    modifies cpu`pc, cpu`mode, cpu`exc, cpu`excData, cpu.csr.regs
    ensures cpu.View() == Sret(old(cpu.View()), insn)
  {
    hide StoreCsr, LoadCsr, Bits.WriteBit, Bits.ReadBit, SretRegs, Back;
    var tsr := cpu.csr.ReadBit(MSTATUS, 22);
    if tsr || cpu.mode == User {
      cpu.SetException(IllegalInstruction, insn);
      return;
    }
    var sepc := cpu.csr.Load(SEPC);
    cpu.pc := Back(sepc);
    var spp := cpu.csr.ReadBit(SSTATUS, 8);
    cpu.mode := if spp then Supervisor else User;
    RestoreFromSupervisor(cpu.csr);
  }

  method RestoreFromMachine(csr: Csr)
    requires csr.Valid()
    modifies csr.regs
    ensures csr.View() == MretRegs(old(csr.View()))
  {
    hide StoreCsr, LoadCsr, Bits.WriteBit, Bits.ReadBit, Csr.View, WriteMpp, MppMode;
    var mpp := csr.ReadMppMode();
    if mpp != Machine {
      csr.WriteBit(MSTATUS, 17, false);
    }
    var mpie := csr.ReadBit(MSTATUS, 7);
    csr.WriteBit(MSTATUS, 3, mpie);
    csr.WriteBit(MSTATUS, 7, true);
    csr.WriteMppMode(User);
  }

  /** csr::mret. */
  method ReturnFromMachine(cpu: Cpu, insn: bv64)
    requires cpu.Valid()
    modifies cpu`pc, cpu`mode, cpu`exc, cpu`excData, cpu.csr.regs
    ensures cpu.View() == Mret(old(cpu.View()), insn)
  {
    hide StoreCsr, LoadCsr, Bits.WriteBit, Bits.ReadBit, MretRegs, MppMode, Back;
    if cpu.mode != Machine {
      cpu.SetException(IllegalInstruction, insn);
      return;
    }
    var mepc := cpu.csr.Load(MEPC);
    cpu.pc := Back(mepc);
    cpu.mode := cpu.csr.ReadMppMode();
    RestoreFromMachine(cpu.csr);
  }
}
