/** The instruction handlers and the main loop on the hart's objects (ctypeinsn.cpp,
    atomictype.cpp, csrtypeinsn.cpp, cpu.cpp), each proved against its effect on the state. */
module Processor {
  import opened Bits
  import opened PageTable
  import opened CsrFile
  import opened Hart
  import opened Traps
  import opened Interrupts
  import opened AccessPath
  import opened Decoder
  import opened Isa
  import opened Compressed
  import opened Expansion
  import opened Atomics
  import opened System
  import opened Emulator
  import opened TrapHandling
  import Spec = Machine

  /** What came of an instruction: the new state, or None when the instruction is left out. */
  ghost function Result(cpu: Cpu, known: bool): Option<State>
    requires cpu.Valid()
    reads cpu.Repr()
  {
    if known then Some(cpu.View()) else None
  }

  method ReadReg(cpu: Cpu, i: bv64) returns (v: bv64)
    requires cpu.Valid()
    ensures cpu.View() == old(cpu.View()) && v == Reg(cpu.View().regs, i)
  {
    v := cpu.regs[Index(i)];
  }

  method WriteReg(cpu: Cpu, rd: bv64, v: bv64)
    requires cpu.Valid()
    modifies cpu.regs
    ensures cpu.View() == SetReg(old(cpu.View()), rd, v)
  {
    cpu.SetReg(Index(rd), v);
  }

  method LoadInto(cpu: Cpu, rd: bv64, address: bv64, n: Width)
    requires cpu.Valid()
    modifies cpu.Repr()
    ensures var s := old(cpu.View()); cpu.View() == Spec.Apply(s, Effect(s.pc, LoadTo(rd, address, n, true, false)))
  {
    hide MmuLoad, Spec.Extend, Cpu.View, SetReg;
    var v := cpu.mmu.Load(cpu, address, n);
    WriteReg(cpu, rd, Spec.Extend(v, n, true));
  }

  method StoreFrom(cpu: Cpu, address: bv64, n: Width, v: bv64)
    requires cpu.Valid()
    modifies cpu.Repr()
    ensures var s := old(cpu.View()); cpu.View() == Spec.Apply(s, Effect(s.pc, StoreTo(address, n, v)))
  {
    hide MmuStore, Cpu.View;
    cpu.mmu.Store(cpu, address, n, v);
  }

  method Assign(cpu: Cpu, rd: bv64, v: bv64)
    requires cpu.Valid()
    modifies cpu.Repr()
    ensures var s := old(cpu.View()); cpu.View() == Spec.Apply(s, Effect(s.pc, Write(rd, v)))
  {
    hide Cpu.View, SetReg;
    WriteReg(cpu, rd, v);
  }

  method Jump(cpu: Cpu, target: bv64)
    requires cpu.Valid()
    modifies cpu.Repr()
    ensures cpu.View() == Spec.Apply(old(cpu.View()), Effect(target, Idle))
  {
    cpu.pc := target;
  }

  method JumpAndLink(cpu: Cpu, target: bv64, link: bv64)
    requires cpu.Valid()
    modifies cpu.Repr()
    ensures cpu.View() == Spec.Apply(old(cpu.View()), Effect(target, Write(RA, link)))
  {
    cpu.pc := target;
    WriteReg(cpu, RA, link);
  }

  method Reject(cpu: Cpu, w: bv64)
    requires cpu.Valid()
    modifies cpu.Repr()
    ensures var s := old(cpu.View()); cpu.View() == Spec.Apply(s, Effect(s.pc, Illegal(w)))
  {
    hide Cpu.View;
    cpu.SetException(IllegalInstruction, w);
  }

  lemma IdleKeeps(s: State)
    ensures Spec.Apply(s, Effect(s.pc, Idle)) == s
  {}

  /** ctype::quadrant0. */
  method Quadrant0(cpu: Cpu, w: bv64) returns (known: bool)
    requires cpu.Valid()
    modifies cpu.Repr()
    ensures var s := old(cpu.View()); Result(cpu, known) == Spec.Perform(s, Compressed.Quadrant0(w, s.regs, s.pc))
  {
    hide Spec.Apply, Illegal, Cpu.View, CFunct3, CRd, CRs1, CRs2, Reg, Add, Addi4spnImm, LwOffset, LdOffset, Low32;
    known := true;
    var base := ReadReg(cpu, CRs1(w));
    var source := ReadReg(cpu, CRs2(w));
    var sp := ReadReg(cpu, SP);
    match CFunct3(w) {
      case 0 => Assign(cpu, CRd(w), Add(sp, Addi4spnImm(w)));
      case 2 => LoadInto(cpu, CRd(w), Add(base, LwOffset(w)), 4);
      case 3 => LoadInto(cpu, CRd(w), Add(base, LdOffset(w)), 8);
      case 4 => Reject(cpu, w);
      case 6 => StoreFrom(cpu, Add(base, LwOffset(w)), 4, Low32(source));
      case 7 => StoreFrom(cpu, Add(base, LdOffset(w)), 8, source);
      case _ => known := false;
    }
  }

  /** q1op4. */
  method ArithmeticOp(cpu: Cpu, w: bv64)
    requires cpu.Valid()
    modifies cpu.Repr()
    ensures var s := old(cpu.View()); cpu.View() == Spec.Apply(s, Effect(s.pc, Arithmetic(w, s.regs)))
  {
    hide Spec.Apply, Illegal, Cpu.View, CFunct2, CRs1, CRs2, Reg, Add, Sub, Xor, Or, And, Srl, SraBy, CShamt,
      CImm, Sext32;
    var rd := CRs1(w);
    var a := ReadReg(cpu, rd);
    var b := ReadReg(cpu, CRs2(w));
    match CFunct2(w) {
      case 0 => Assign(cpu, rd, Srl(a, CShamt(w)));
      case 1 => Assign(cpu, rd, SraBy(a, CShamt(w)));
      case 2 => Assign(cpu, rd, And(a, CImm(w)));
      case _ =>
        if (w >> 12) & 1 == 0 {
          match (w >> 5) & 3 {
            case 0 => Assign(cpu, rd, Sub(a, b));
            case 1 => Assign(cpu, rd, Xor(a, b));
            case 2 => Assign(cpu, rd, Or(a, b));
            case _ => Assign(cpu, rd, And(a, b));
          }
        } else {
          match (w >> 5) & 3 {
            case 0 => Assign(cpu, rd, Sext32(Sub(a, b)));
            case 1 => Assign(cpu, rd, Sext32(Add(a, b)));
            case _ => Reject(cpu, w);
          }
        }
    }
  }

  /** ctype::quadrant1. */
  method Quadrant1(cpu: Cpu, w: bv64)
    requires cpu.Valid()
    modifies cpu.Repr()
    ensures var s := old(cpu.View()); cpu.View() == Spec.Apply(s, Compressed.Quadrant1(w, s.regs, s.pc))
  {
    hide Spec.Apply, Illegal, Cpu.View, CFunct3, Rd, CRs1, Reg, Add, CImm, Addi16spImm, LuiImm, JImm, BImm, Sext32,
      Relative, Arithmetic;
    var rd := Rd(w);
    var a := ReadReg(cpu, rd);
    var sp := ReadReg(cpu, SP);
    var b := ReadReg(cpu, CRs1(w));
    cpu.ViewFields();
    IdleKeeps(cpu.View());
    match CFunct3(w) {
      case 0 => Assign(cpu, rd, Add(a, CImm(w)));
      case 1 => Assign(cpu, rd, Sext32(Add(a, CImm(w))));
      case 2 => Assign(cpu, rd, CImm(w));
      case 3 =>
        if rd == 2 {
          Assign(cpu, SP, Add(sp, Addi16spImm(w)));
        } else if rd != 0 {
          Assign(cpu, rd, LuiImm(w));
        }
      case 4 => ArithmeticOp(cpu, w);
      case 5 => Jump(cpu, Relative(cpu.pc, JImm(w), 2));
      case 6 =>
        if b == 0 {
          Jump(cpu, Relative(cpu.pc, BImm(w), 2));
        }
      case _ =>
        if b != 0 {
          Jump(cpu, Relative(cpu.pc, BImm(w), 2));
        }
    }
  }

  /** ctype::quadrant2. */
  method Quadrant2(cpu: Cpu, w: bv64) returns (known: bool)
    requires cpu.Valid()
    modifies cpu.Repr()
    ensures var s := old(cpu.View()); Result(cpu, known) == Spec.Perform(s, Compressed.Quadrant2(w, s.regs, s.pc))
  {
    hide Spec.Apply, Illegal, Cpu.View, CFunct3, Rd, Rs2Sp, Reg, Add, Sll, CShamt, LwspOffset, LdspOffset, SwspOffset,
      SdspOffset, Low32, Absolute;
    known := true;
    var rd, rs := Rd(w), Rs2Sp(w);
    var a := ReadReg(cpu, rd);
    var b := ReadReg(cpu, rs);
    var sp := ReadReg(cpu, SP);
    cpu.ViewFields();
    match CFunct3(w) {
      case 0 => Assign(cpu, rd, Sll(a, CShamt(w)));
      case 2 => LoadInto(cpu, rd, Add(sp, LwspOffset(w)), 4);
      case 3 => LoadInto(cpu, rd, Add(sp, LdspOffset(w)), 8);
      case 4 =>
        if (w >> 12) & 1 == 0 {
          if rs == 0 {
            Jump(cpu, Absolute(a, 2));
          } else {
            Assign(cpu, rd, b);
          }
        } else if rs == 0 {
          var link := Add(cpu.pc, 2);
          JumpAndLink(cpu, Absolute(a, 2), link);
        } else {
          Assign(cpu, rd, Add(a, b));
        }
      case 6 => StoreFrom(cpu, Add(sp, SwspOffset(w)), 4, Low32(b));
      case 7 => StoreFrom(cpu, Add(sp, SdspOffset(w)), 8, b);
      case _ => known := false;
    }
  }

  /** Cpu::execute16. */
  method Execute16(cpu: Cpu, w: bv64) returns (known: bool)
    requires cpu.Valid()
    modifies cpu.Repr()
    ensures Result(cpu, known) == Spec.Execute16(old(cpu.View()), w)
  {
    hide Cpu.View, COpcode, Compressed.Quadrant0, Compressed.Quadrant1, Compressed.Quadrant2, MmuLoad, MmuStore,
      SetReg, Spec.Extend;
    known := true;
    match COpcode(w) {
      case 0 => known := Quadrant0(cpu, w);
      case 1 => Quadrant1(cpu, w);
      case 2 => known := Quadrant2(cpu, w);
      case _ => cpu.SetException(IllegalInstruction, w);
    }
  }

  // ---- Atomics ---------------------------------------------------------------------------------------

  /** The read-modify-write handlers. */
  method AmoHandler(cpu: Cpu, w: bv64, n: nat)
    requires cpu.Valid() && n > 0
    modifies cpu.Repr()
    ensures cpu.View() == Amo(old(cpu.View()), w, n)
  {
    hide Cpu.View, Reg, Rs1, Rs2, Rd, Funct5, AmoValue, Narrow, MmuLoad, MmuStore, SetReg;
    var address := ReadReg(cpu, Rs1(w));
    var source := ReadReg(cpu, Rs2(w));
    var v := cpu.mmu.Load(cpu, address, n);
    cpu.mmu.Store(cpu, address, n, AmoValue(Funct5(w), n, v, source));
    WriteReg(cpu, Rd(w), Narrow(v, n));
  }

  /** atomic::lrw and lrd. */
  method LoadReservedHandler(cpu: Cpu, w: bv64, n: nat)
    requires cpu.Valid() && n > 0
    modifies cpu.Repr()
    ensures cpu.View() == LoadReserved(old(cpu.View()), w, n)
  {
    hide Reg, Rs1, Rd, Narrow, MmuLoad;
    ghost var s := cpu.View();
    var address := ReadReg(cpu, Rs1(w));
    Spec.LoadFrame(s, address, n);
    var v := cpu.mmu.Load(cpu, address, n);
    WriteReg(cpu, Rd(w), Narrow(v, n));
    cpu.reservations := cpu.reservations + {address};
  }

  /** atomic::scw and scd. */
  method StoreConditionalHandler(cpu: Cpu, w: bv64, n: nat)
    requires cpu.Valid() && n > 0
    modifies cpu.Repr()
    ensures cpu.View() == StoreConditional(old(cpu.View()), w, n)
  {
    hide Reg, Rs1, Rs2, Rd, Low, MmuStore;
    var address := ReadReg(cpu, Rs1(w));
    var source := ReadReg(cpu, Rs2(w));
    if address in cpu.reservations {
      cpu.reservations := cpu.reservations - {address};
      cpu.mmu.Store(cpu, address, n, Low(source, n));
      WriteReg(cpu, Rd(w), 0);
    } else {
      WriteReg(cpu, Rd(w), 1);
    }
  }

  /** amow and amod. */
  method AtomicWidth(cpu: Cpu, w: bv64, n: nat)
    requires cpu.Valid() && n > 0
    modifies cpu.Repr()
    ensures cpu.View() == AtomicOp(old(cpu.View()), w, n)
  {
    hide Cpu.View, Reg, Rs1, Aligned, Funct5, IsAmo, Amo, LoadReserved, StoreConditional;
    var address := ReadReg(cpu, Rs1(w));
    if !Aligned(address, n) {
      cpu.SetException(if n == 4 then InstructionAddressMisaligned else IllegalInstruction, w);
    }
    if Funct5(w) == LR {
      LoadReservedHandler(cpu, w, n);
    } else if Funct5(w) == SC {
      StoreConditionalHandler(cpu, w, n);
    } else if IsAmo(Funct5(w)) {
      AmoHandler(cpu, w, n);
    } else {
      cpu.SetException(IllegalInstruction, w);
    }
  }

  /** atomic::funct3. */
  method AtomicHandler(cpu: Cpu, w: bv64)
    requires cpu.Valid()
    modifies cpu.Repr()
    ensures cpu.View() == Atomic(old(cpu.View()), w)
  {
    hide Cpu.View, Funct3, AtomicOp;
    if Funct3(w) == 2 {
      AtomicWidth(cpu, w, 4);
    } else if Funct3(w) == 3 {
      AtomicWidth(cpu, w, 8);
    } else {
      cpu.SetException(IllegalInstruction, w);
    }
  }

  // ---- System instructions ------------------------------------------------------------------------------

  /** csr_default_handler. */
  method CsrDefault(cpu: Cpu, rd: bv64, a: Address, rhs: bv64, op: CsrOp)
    requires cpu.Valid()
    modifies cpu.Repr()
    ensures cpu.View() == DefaultHandler(old(cpu.View()), rd, a, rhs, op)
  {
    hide LoadCsr, StoreCsr, CsrResult;
    var v := cpu.csr.Load(a);
    cpu.csr.Store(a, CsrResult(op, v, rhs));
    WriteReg(cpu, rd, v);
  }

  method ReadCsr(cpu: Cpu, a: Address) returns (v: bv64)
    requires cpu.Valid()
    ensures cpu.View() == old(cpu.View()) && v == LoadCsr(cpu.View().csr, a)
  {
    hide LoadCsr;
    v := cpu.csr.Load(a);
  }

  method ReadCsrBit(cpu: Cpu, a: Address, i: BitIndex) returns (b: bool)
    requires cpu.Valid()
    ensures cpu.View() == old(cpu.View()) && b == CsrBit(cpu.View().csr, a, i)
  {
    hide LoadCsr, Bits.ReadBit;
    b := cpu.csr.ReadBit(a, i);
  }

  /** csr_satp_handler. */
  method CsrSatp(cpu: Cpu, w: bv64, rhs: bv64, op: CsrOp)
    requires cpu.Valid()
    modifies cpu.Repr()
    ensures cpu.View() == SatpHandler(old(cpu.View()), w, rhs, op)
  {
    hide Cpu.View, CsrBit, DefaultHandler, MmuUpdate, Rd;
    var tvm := ReadCsrBit(cpu, MSTATUS, 20);
    if tvm {
      cpu.SetException(IllegalInstruction, w);
    }
    CsrDefault(cpu, Rd(w), SATP, rhs, op);
    cpu.mmu.Update(cpu);
  }

  /** The dispatch of csrw, csrs, csrc and their immediate forms through the handler table. */
  method CsrInstruction(cpu: Cpu, w: bv64, a: Address, rhs: bv64, op: CsrOp) returns (known: bool)
    requires cpu.Valid()
    modifies cpu.Repr()
    ensures Result(cpu, known) == CsrAccess(old(cpu.View()), w, a, rhs, op)
  {
    hide Cpu.View, LoadCsr, CsrResult, DefaultHandler, SatpHandler, IsReadOnly, IsFloatCsr, Rd, SetReg;
    known := true;
    cpu.ViewFields();
    var v := ReadCsr(cpu, a);
    if IsFloatCsr(a) {
      known := false;
    } else if a == SATP {
      CsrSatp(cpu, w, rhs, op);
    } else if IsReadOnly(a) {
      WriteReg(cpu, Rd(w), v);
    } else if a == CYCLE {
      if CsrResult(op, v, rhs) != v {
        cpu.SetException(IllegalInstruction, w);
      } else {
        WriteReg(cpu, Rd(w), v);
      }
    } else if a == MSTATUS && cpu.mode == User {
      cpu.SetException(IllegalInstruction, w);
    } else {
      CsrDefault(cpu, Rd(w), a, rhs, op);
    }
  }

  /** csr::sfencevma. */
  method Fence(cpu: Cpu, w: bv64)
    requires cpu.Valid()
    modifies cpu.Repr()
    ensures cpu.View() == FenceVma(old(cpu.View()), w)
  {
    hide Cpu.View, CsrBit, MmuUpdate;
    var tvm := ReadCsrBit(cpu, MSTATUS, 20);
    cpu.ViewFields();
    if tvm || cpu.mode == User {
      cpu.SetException(IllegalInstruction, w);
    }
    cpu.mmu.Update(cpu);
  }

  /** csr::ecall. */
  method EnvironmentCall(cpu: Cpu, w: bv64)
    requires cpu.Valid()
    modifies cpu.Repr()
    ensures cpu.View() == ECall(old(cpu.View()), w)
  {
    hide Cpu.View;
    cpu.ViewFields();
    match cpu.mode {
      case Machine => cpu.SetException(ECallMMode, cpu.pc);
      case Supervisor => cpu.SetException(ECallSMode, cpu.pc);
      case User => cpu.SetException(ECallUMode, cpu.pc);
      case Invalid => cpu.SetException(IllegalInstruction, w);
    }
  }

  /** csr::environment. */
  method EnvironmentHandler(cpu: Cpu, w: bv64)
    requires cpu.Valid()
    modifies cpu.Repr()
    ensures cpu.View() == Environment(old(cpu.View()), w)
  {
    hide Cpu.View, Funct7, Rs2, FenceVma, ECall, Sret, Mret;
    var f7, imm := Funct7(w), Rs2(w);
    if f7 == 0x09 {
      Fence(cpu, w);
    } else if f7 == 0x11 || f7 == 0x51 {
      cpu.SetException(IllegalInstruction, w);
    } else if imm == 0 {
      EnvironmentCall(cpu, w);
    } else if imm == 1 {
      cpu.SetException(Breakpoint, 0);
    } else if imm == 2 && f7 == 0x08 {
      ReturnFromSupervisor(cpu, w);
    } else if imm == 2 && f7 == 0x18 {
      ReturnFromMachine(cpu, w);
    } else if imm == 5 && f7 == 0x08 {
    } else {
      cpu.SetException(IllegalInstruction, w);
    }
  }

  /** csr::funct3. */
  method SystemHandler(cpu: Cpu, w: bv64) returns (known: bool)
    requires cpu.Valid()
    modifies cpu.Repr()
    ensures Result(cpu, known) == SystemOp(old(cpu.View()), w)
  {
    hide Cpu.View, Funct3, Rs1, Reg, CsrAddress, Environment, CsrAccess;
    known := true;
    var a := CsrAddress(w);
    var r := ReadReg(cpu, Rs1(w));
    match Funct3(w) {
      case 0 => EnvironmentHandler(cpu, w);
      case 1 => known := CsrInstruction(cpu, w, a, r, ReadWrite);
      case 2 => known := CsrInstruction(cpu, w, a, r, ReadSet);
      case 3 => known := CsrInstruction(cpu, w, a, r, ReadClear);
      case 5 => known := CsrInstruction(cpu, w, a, Rs1(w), ReadWrite);
      case 6 => known := CsrInstruction(cpu, w, a, Rs1(w), ReadSet);
      case 7 => known := CsrInstruction(cpu, w, a, Rs1(w), ReadClear);
      case _ => cpu.SetException(IllegalInstruction, w);
    }
  }

  // ---- The loop -------------------------------------------------------------------------------------------

  /** Carry out the effect of a base integer instruction. */
  method Perform(cpu: Cpu, e: Effect)
    requires cpu.Valid()
    modifies cpu.Repr()
    ensures cpu.View() == Spec.Apply(old(cpu.View()), e)
  {
    hide Cpu.View, MmuLoad, MmuStore, Spec.Extend, SetReg;
    Jump(cpu, e.pc);
    match e.act {
      case Idle =>
      case Write(rd, v) => WriteReg(cpu, rd, v);
      case LoadTo(rd, a, n, signed, keep) =>
        var v := cpu.mmu.Load(cpu, a, n);
        cpu.ViewFields();
        if !keep || cpu.exc == NoException {
          WriteReg(cpu, rd, Spec.Extend(v, n, signed));
        }
      case StoreTo(a, n, v) => cpu.mmu.Store(cpu, a, n, v);
      case Raises(x, data) => cpu.SetException(x, data);
    }
  }

  /** Cpu::execute32. */
  method Execute32(cpu: Cpu, w: bv64) returns (known: bool)
    requires cpu.Valid()
    modifies cpu.Repr()
    ensures Result(cpu, known) == Spec.Execute32(old(cpu.View()), w)
  {
    hide Effect32, Opcode, Spec.Apply, Atomic, SystemOp;
    if Opcode(w) == ATOMIC {
      AtomicHandler(cpu, w);
      return true;
    }
    if Opcode(w) == SYSTEM {
      known := SystemHandler(cpu, w);
      return known;
    }
    match Effect32(w, cpu.regs[..], cpu.pc, 4) {
      case None => return false;
      case Some(e) =>
        Perform(cpu, e);
        return true;
    }
  }

  /** Cpu::_loop: fetch and execute one instruction, and return its length. */
  method FetchAndExecute(cpu: Cpu) returns (known: bool, size: bv64)
    requires cpu.Valid()
    modifies cpu.Repr()
    ensures match Spec.FetchAndExecute(Spec.WithoutZero(old(cpu.View())))
            case None => !known
            case Some((t, n)) => known && cpu.View() == t && size == n
  {
    hide Cpu.View, MmuFetch, Spec.Execute16, Spec.Execute32, InsnSize;
    cpu.SetReg(0, 0);
    cpu.ViewFields();
    if cpu.sleep {
      return true, 0;
    }
    var w := cpu.mmu.Fetch(cpu, cpu.pc);
    cpu.ViewFields();
    if cpu.exc != NoException {
      return true, 4;
    }
    if w == 0 {
      cpu.SetException(IllegalInstruction, 0);
      return true, 4;
    }
    size := InsnSize(w);
    if size == 2 {
      known := Execute16(cpu, w);
    } else {
      known := Execute32(cpu, w);
    }
  }

  /** Cpu::loop: one step. */
  method Loop(cpu: Cpu, irq: bool) returns (known: bool)
    requires cpu.Valid()
    modifies cpu.Repr()
    ensures Result(cpu, known) == Spec.Step(old(cpu.View()), irq)
  {
    hide Cpu.View, Spec.FetchAndExecute, Poll, Enter, LoadCsr, StoreCsr, Add;
    CountCycle(cpu);
    var c := GetPendingInterrupt(cpu, irq);
    if c.Some? {
      Process(cpu, Trap.Interrupt(c.value));
    }
    var size: bv64;
    known, size := FetchAndExecute(cpu);
    if !known {
      return;
    }
    cpu.ViewFields();
    if cpu.exc != NoException {
      Process(cpu, Trap.Fault(cpu.exc, cpu.excData));
      cpu.ClearException();
    } else {
      Advance(cpu, size);
    }
  }

  method CountCycle(cpu: Cpu)
    requires cpu.Valid()
    modifies cpu.Repr()
    ensures cpu.View() == Spec.CountCycle(old(cpu.View()))
  {
    hide LoadCsr, StoreCsr, Add;
    var cycle := cpu.csr.Load(CYCLE);
    cpu.csr.Store(CYCLE, Add(cycle, 1));
  }

  method Advance(cpu: Cpu, size: bv64)
    requires cpu.Valid()
    modifies cpu.Repr()
    ensures var s := old(cpu.View()); cpu.View() == s.(pc := Add(s.pc, size))
  {
    hide Add;
    cpu.pc := Add(cpu.pc, size);
  }
}
