/** Privilege over whole runs of the machine: it rises only by traps, and the reserved mode is
    reached only through a store to mstatus that puts it there. */
module Privilege {
  import opened PageTable
  import opened CsrFile
  import opened Hart
  import opened Traps
  import opened Interrupts
  import opened AccessPath
  import opened Decoder
  import opened Isa
  import opened Compressed
  import opened Atomics
  import opened System
  import opened Machine

  // ---- Rank ---------------------------------------------------------------------------------------

  lemma ExecutePrivilege(s: State, w: bv64)
    requires Lawful(s) && Execute(s, w).Some?
    ensures Rank(Execute(s, w).value.mode) <= Rank(s.mode)
  {
    hide Effect16, Effect32, Apply, Atomic, SystemOp, InsnSize, Opcode, StatusOf;
    if InsnSize(w) == 2 {
      ApplyFrame(s, Effect16(w, s.regs, s.pc).value);
    } else if Opcode(w) == ATOMIC {
      AtomicMode(s, w);
    } else if Opcode(w) == SYSTEM {
      SystemPrivilege(s, w);
    } else {
      ApplyFrame(s, Effect32(w, s.regs, s.pc, 4).value);
    }
  }

  lemma AtomicMode(s: State, w: bv64)
    ensures Atomic(s, w).mode == s.mode
  {
    hide AtomicOp, Funct3;
    AtomicFrame(s, w);
  }

  lemma SatpMode(s: State, w: bv64, rhs: bv64, op: CsrOp)
    ensures SatpHandler(s, w, rhs, op).mode == s.mode
  {
    hide CsrBit, LoadCsr, DefaultHandler, RootOf;
    var t := if CsrBit(s.csr, MSTATUS, 20) then Raise(s, IllegalInstruction, w) else s;
    DefaultFrame(t, Rd(w), SATP, rhs, op);
  }

  lemma CsrMode(s: State, w: bv64, a: Address, rhs: bv64, op: CsrOp)
    ensures CsrAccess(s, w, a, rhs, op).Some? ==> CsrAccess(s, w, a, rhs, op).value.mode == s.mode
  {
    hide LoadCsr, CsrResult, DefaultHandler, SatpHandler, IsFloatCsr, IsReadOnly, Index, Rd;
    SatpMode(s, w, rhs, op);
    DefaultFrame(s, Rd(w), a, rhs, op);
  }

  lemma SretPrivilege(s: State, w: bv64)
    requires Lawful(s)
    ensures Rank(Sret(s, w).mode) <= Rank(s.mode)
  {
    hide CsrBit, LoadCsr, SretRegs, StatusOf, Back;
    ReadFields(s.csr);
  }

  lemma MretPrivilege(s: State, w: bv64)
    requires Lawful(s)
    ensures Rank(Mret(s, w).mode) <= Rank(s.mode)
  {
    hide CsrBit, LoadCsr, MretRegs, MppMode, StatusOf, Back;
    ReadFields(s.csr);
  }

  lemma FenceMode(s: State, w: bv64)
    ensures FenceVma(s, w).mode == s.mode && ECall(s, w).mode == s.mode
  {
    hide CsrBit, LoadCsr, RootOf;
  }

  lemma RaisedMode(s: State, e: Exception, data: bv64)
    ensures Raise(s, e, data).mode == s.mode
  {}

  lemma EnvironmentPrivilege(s: State, w: bv64)
    requires Lawful(s)
    ensures Rank(Environment(s, w).mode) <= Rank(s.mode)
  {
    hide Sret, Mret, FenceVma, ECall, Funct7, Rs2, Lawful, Raise, Rank;
    RaisedMode(s, Breakpoint, 0);
    RaisedMode(s, IllegalInstruction, w);
    SretPrivilege(s, w);
    MretPrivilege(s, w);
    FenceMode(s, w);
  }

  lemma SystemPrivilege(s: State, w: bv64)
    requires Lawful(s) && SystemOp(s, w).Some?
    ensures Rank(SystemOp(s, w).value.mode) <= Rank(s.mode)
  {
    hide CsrAccess, Environment, StatusOf, Funct3, Rs1, Reg, CsrAddress;
    var a, r := CsrAddress(w), Reg(s.regs, Rs1(w));
    EnvironmentPrivilege(s, w);
    CsrMode(s, w, a, r, ReadWrite);
    CsrMode(s, w, a, r, ReadSet);
    CsrMode(s, w, a, r, ReadClear);
    CsrMode(s, w, a, Rs1(w), ReadWrite);
    CsrMode(s, w, a, Rs1(w), ReadSet);
    CsrMode(s, w, a, Rs1(w), ReadClear);
  }

  /** A step that takes neither an interrupt nor an exception does not raise the privilege. */
  lemma OnlyTrapsRaisePrivilege(s: State, irq: bool)
    requires Lawful(s) && Step(s, irq).Some?
    requires Poll(CountCycle(s), irq).1.None? && !StepTraps(s, irq)
    ensures Rank(Step(s, irq).value.mode) <= Rank(s.mode)
  {
    hide MmuFetch, Execute, StatusBits, Add, InsnSize, LoadCsr, Poll, Enter;
    PollFrame(CountCycle(s), irq);
    var t := Prepared(s, irq);
    FetchFrame(t, t.pc);
    var (u, w) := MmuFetch(t, t.pc);
    if !t.sleep && u.exc == NoException && w != 0 {
      ExecutePrivilege(u, w);
    }
  }

  // ---- The reserved mode ----------------------------------------------------------------------------

  /** The value that an instruction stores in mstatus itself, if it stores one. */
  function StoredMstatus(s: State, w: bv64): Option<bv64>
  {
    if InsnSize(w) == 2 || Opcode(w) != SYSTEM || CsrAddress(w) != MSTATUS || s.mode == User then None
    else
      var v, r := LoadCsr(s.csr, MSTATUS), Reg(s.regs, Rs1(w));
      match Funct3(w)
      case 1 => Some(CsrResult(ReadWrite, v, r))
      case 2 => Some(CsrResult(ReadSet, v, r))
      case 3 => Some(CsrResult(ReadClear, v, r))
      case 5 => Some(CsrResult(ReadWrite, v, Rs1(w)))
      case 6 => Some(CsrResult(ReadSet, v, Rs1(w)))
      case 7 => Some(CsrResult(ReadClear, v, Rs1(w)))
      case _ => None
  }

  /** The instruction puts MPP = 2 in mstatus. */
  predicate StoresReserved(s: State, w: bv64)
  {
    StoredMstatus(s, w).Some? && ReservedMpp(StoredMstatus(s, w).value)
  }

  lemma SameLawful(s: State, t: State)
    requires t.mode == s.mode && t.csr == s.csr
    ensures Lawful(t) == Lawful(s)
  {}

  lemma StoreLawful(s: State, t: State, a: Address, v: bv64)
    requires Lawful(s) && t.mode == s.mode && t.csr == StoreCsr(s.csr, a, v)
    ensures Lawful(t) <==> !(a == MSTATUS && ReservedMpp(v))
  {
    hide StatusOf, StoreCsr, ReservedMpp;
    ReservedOnlyThroughMstatus(s.csr, a, v);
  }

  lemma SatpCsr(s: State, w: bv64, rhs: bv64, op: CsrOp)
    ensures SatpHandler(s, w, rhs, op).csr == StoreCsr(s.csr, SATP, CsrResult(op, LoadCsr(s.csr, SATP), rhs))
  {
    hide CsrBit, LoadCsr, StoreCsr, CsrResult, RootOf, Index, Rd;
  }

  lemma CsrLawful(s: State, w: bv64, a: Address, rhs: bv64, op: CsrOp)
    requires Lawful(s) && CsrAccess(s, w, a, rhs, op).Some?
    ensures Lawful(CsrAccess(s, w, a, rhs, op).value) <==>
            !(a == MSTATUS && s.mode != User && ReservedMpp(CsrResult(op, LoadCsr(s.csr, a), rhs)))
  {
    hide LoadCsr, StoreCsr, CsrResult, SatpHandler, Index, Rd, Lawful, ReservedMpp;
    var t, v := CsrAccess(s, w, a, rhs, op).value, CsrResult(op, LoadCsr(s.csr, a), rhs);
    CsrMode(s, w, a, rhs, op);
    if a == SATP {
      SatpCsr(s, w, rhs, op);
      StoreLawful(s, t, a, v);
    } else if IsReadOnly(a) || a == CYCLE || (a == MSTATUS && s.mode == User) {
      SameLawful(s, t);
    } else {
      StoreLawful(s, t, a, v);
    }
  }

  lemma ReturnLawful(s: State, w: bv64)
    requires Lawful(s)
    ensures Lawful(Sret(s, w)) && Lawful(Mret(s, w))
  {
    hide CsrBit, LoadCsr, SretRegs, MretRegs, MppMode, StatusBits, Back;
    ReadFields(s.csr);
    SretFields(s.csr);
    MretFields(s.csr);
  }

  lemma FenceLawful(s: State, w: bv64)
    requires Lawful(s)
    ensures Lawful(FenceVma(s, w)) && Lawful(ECall(s, w))
  {
    hide CsrBit, LoadCsr, RootOf, StatusOf;
  }

  lemma RaisedLawful(s: State, e: Exception, data: bv64)
    ensures Lawful(Raise(s, e, data)) == Lawful(s)
  {}

  lemma EnvironmentLawful(s: State, w: bv64)
    requires Lawful(s)
    ensures Lawful(Environment(s, w))
  {
    hide Sret, Mret, FenceVma, ECall, Funct7, Rs2, Lawful, Raise;
    RaisedLawful(s, Breakpoint, 0);
    RaisedLawful(s, IllegalInstruction, w);
    ReturnLawful(s, w);
    FenceLawful(s, w);
  }

  lemma SystemLawful(s: State, w: bv64)
    requires Lawful(s) && SystemOp(s, w).Some? && InsnSize(w) != 2 && Opcode(w) == SYSTEM
    ensures Lawful(SystemOp(s, w).value) <==> !StoresReserved(s, w)
  {
    hide CsrAccess, Environment, Lawful, ReservedMpp, Funct3, Rs1, Reg, CsrAddress, LoadCsr, CsrResult, InsnSize,
      Opcode, Raise;
    var a, r := CsrAddress(w), Reg(s.regs, Rs1(w));
    match Funct3(w)
    case 0 => EnvironmentLawful(s, w);
    case 1 => CsrLawful(s, w, a, r, ReadWrite);
    case 2 => CsrLawful(s, w, a, r, ReadSet);
    case 3 => CsrLawful(s, w, a, r, ReadClear);
    case 5 => CsrLawful(s, w, a, Rs1(w), ReadWrite);
    case 6 => CsrLawful(s, w, a, Rs1(w), ReadSet);
    case 7 => CsrLawful(s, w, a, Rs1(w), ReadClear);
    case _ => RaisedLawful(s, IllegalInstruction, w);
  }

  /** An instruction keeps a lawful state lawful exactly when it does not put MPP = 2 in mstatus. */
  lemma ExecuteLawful(s: State, w: bv64)
    requires Lawful(s) && Execute(s, w).Some?
    ensures Lawful(Execute(s, w).value) <==> !StoresReserved(s, w)
  {
    hide Effect16, Effect32, Apply, Atomic, SystemOp, InsnSize, Opcode, Lawful;
    var t := Execute(s, w).value;
    if InsnSize(w) == 2 {
      ApplyFrame(s, Effect16(w, s.regs, s.pc).value);
      SameLawful(s, t);
    } else if Opcode(w) == ATOMIC {
      AtomicFrame(s, w);
      SameLawful(s, t);
    } else if Opcode(w) == SYSTEM {
      SystemLawful(s, w);
    } else {
      ApplyFrame(s, Effect32(w, s.regs, s.pc, 4).value);
      SameLawful(s, t);
    }
  }

  lemma MstatusQuiet(s: State, w: bv64, rhs: bv64, op: CsrOp)
    requires s.mode != User
    ensures CsrAccess(s, w, MSTATUS, rhs, op).Some? && CsrAccess(s, w, MSTATUS, rhs, op).value.exc == s.exc
  {
    hide LoadCsr, CsrResult, DefaultHandler, Index, Rd;
    DefaultFrame(s, Rd(w), MSTATUS, rhs, op);
  }

  lemma StoringSystem(s: State, w: bv64)
    requires StoredMstatus(s, w).Some?
    ensures SystemOp(s, w).Some? && SystemOp(s, w).value.exc == s.exc
  {
    hide CsrAccess, Environment, LoadCsr, CsrResult, Rs1, Reg, InsnSize, Opcode, CsrAddress, Funct3, Raise;
    var r := Reg(s.regs, Rs1(w));
    MstatusQuiet(s, w, r, ReadWrite);
    MstatusQuiet(s, w, r, ReadSet);
    MstatusQuiet(s, w, r, ReadClear);
    MstatusQuiet(s, w, Rs1(w), ReadWrite);
    MstatusQuiet(s, w, Rs1(w), ReadSet);
    MstatusQuiet(s, w, Rs1(w), ReadClear);
  }

  lemma StoresReservedQuiet(s: State, w: bv64)
    requires StoresReserved(s, w)
    ensures Execute(s, w).Some? && Execute(s, w).value.exc == s.exc
  {
    hide SystemOp, Effect16, Effect32, Perform, Atomic, LoadCsr, CsrResult, ReservedMpp, InsnSize, Opcode, CsrAddress,
      Funct3, Reg, Rs1;
    StoringSystem(s, w);
  }

  lemma PreparedLawful(s: State, irq: bool)
    requires Lawful(s)
    ensures Lawful(Prepared(s, irq))
  {
    hide Poll, Enter, Lawful, Add;
    PollFrame(CountCycle(s), irq);
    var (t, c) := Poll(CountCycle(s), irq);
    CountedLawful(s, t);
    if c.Some? {
      EntryPrivilege(t, Trap.Interrupt(c.value));
      SameLawful(Enter(t, Trap.Interrupt(c.value)), Prepared(s, irq));
    } else {
      SameLawful(t, Prepared(s, irq));
    }
  }

  lemma CountedLawful(s: State, t: State)
    requires Lawful(s) && t.mode == s.mode && t.csr[MSTATUS] == CountCycle(s).csr[MSTATUS]
    ensures Lawful(t)
  {
    hide Add, StatusBits;
  }

  /** The instruction that a step executes, if it executes one, puts MPP = 2 in mstatus. */
  ghost predicate StepStoresReserved(s: State, irq: bool)
  {
    var t := Prepared(s, irq);
    var (u, w) := MmuFetch(t, t.pc);
    !t.sleep && u.exc == NoException && w != 0 && StoresReserved(u, w)
  }

  /** A step keeps a lawful state lawful exactly when it does not put MPP = 2 in mstatus. */
  lemma StepLawful(s: State, irq: bool)
    requires Lawful(s) && Step(s, irq).Some?
    ensures Lawful(Step(s, irq).value) <==> !StepStoresReserved(s, irq)
  {
    hide Prepared, MmuFetch, Execute, Lawful, StoresReserved, Enter, Add, InsnSize;
    PreparedLawful(s, irq);
    var t := Prepared(s, irq);
    FetchFrame(t, t.pc);
    var (u, w) := MmuFetch(t, t.pc);
    SameLawful(t, u);
    if !t.sleep && u.exc == NoException && w != 0 {
      ExecuteLawful(u, w);
      if StoresReserved(u, w) {
        StoresReservedQuiet(u, w);
      }
    } else {
      RaisedLawful(u, IllegalInstruction, 0);
    }
    var v := FetchAndExecute(t).value.0;
    if v.exc != NoException {
      EntryPrivilege(v, Trap.Fault(v.exc, v.excData));
      RaisedLawful(Enter(v, Trap.Fault(v.exc, v.excData)), NoException, 0);
    } else {
      SameLawful(v, Step(s, irq).value);
    }
  }

  // ---- Whole runs -------------------------------------------------------------------------------------

  ghost predicate RunStoresLawful(s: State, irqs: seq<bool>)
    decreases |irqs|
  {
    irqs == [] ||
    (!StepStoresReserved(s, irqs[0]) && (Step(s, irqs[0]).Some? ==> RunStoresLawful(Step(s, irqs[0]).value, irqs[1..])))
  }

  /** At every step of the run at which the privilege rises, an interrupt or an exception is taken. */
  ghost predicate RisesByTraps(s: State, irqs: seq<bool>)
    decreases |irqs|
  {
    irqs == [] ||
    (Step(s, irqs[0]).Some? ==>
       var t := Step(s, irqs[0]).value;
       && (Rank(t.mode) > Rank(s.mode) ==> Poll(CountCycle(s), irqs[0]).1.Some? || StepTraps(s, irqs[0]))
       && RisesByTraps(t, irqs[1..]))
  }

  /** Over every run of the machine in which no executed instruction puts MPP = 2 in mstatus, the
      mode and the mode that mret would restore are never the reserved one, and privilege rises in
      steps that take a trap only. */
  lemma {:induction false} RunPrivilege(s: State, irqs: seq<bool>)
    requires Lawful(s) && RunStoresLawful(s, irqs)
    ensures Steps(s, irqs).Some? ==> Lawful(Steps(s, irqs).value)
    ensures RisesByTraps(s, irqs)
    decreases |irqs|
  {
    hide Lawful, Step, StepStoresReserved, Poll, CountCycle, StepTraps, Rank;
    if irqs != [] && Step(s, irqs[0]).Some? {
      StepLawful(s, irqs[0]);
      if Poll(CountCycle(s), irqs[0]).1.None? && !StepTraps(s, irqs[0]) {
        OnlyTrapsRaisePrivilege(s, irqs[0]);
      }
      RunPrivilege(Step(s, irqs[0]).value, irqs[1..]);
    }
  }
}
