/** The privileged and CSR instructions (csrtypeinsn.cpp). */
module System {
  import opened Bits
  import opened PageTable
  import opened Tlb
  import opened CsrFile
  import opened Hart
  import opened Traps
  import opened AccessPath
  import opened Decoder
  import opened Isa
  import opened Atomics

  datatype CsrOp = ReadWrite | ReadSet | ReadClear

  function CsrResult(op: CsrOp, v: bv64, rhs: bv64): bv64
  {
    match op
    case ReadWrite => rhs
    case ReadSet => Or(v, rhs)
    case ReadClear => And(v, Not(rhs))
  }

  function DefaultHandler(s: State, rd: bv64, a: Address, rhs: bv64, op: CsrOp): State
  {
    var v := LoadCsr(s.csr, a);
    SetReg(s.(csr := StoreCsr(s.csr, a, CsrResult(op, v, rhs))), rd, v)
  }

  /** Writing satp under TVM raises, and the write goes on. */
  function SatpHandler(s: State, w: bv64, rhs: bv64, op: CsrOp): State
  {
    var t := if CsrBit(s.csr, MSTATUS, 20) then Raise(s, IllegalInstruction, w) else s;
    MmuUpdate(DefaultHandler(t, Rd(w), SATP, rhs, op))
  }

  predicate IsFloatCsr(a: Address)
  {
    a == 1 || a == 2 || a == 3
  }

  /** mvendorid, marchid, mimpid, mhartid, misa and tdata1. */
  predicate IsReadOnly(a: Address)
  {
    a == 0xf11 || a == 0xf12 || a == 0xf13 || a == 0xf14 || a == MISA || a == 0x7a1
  }

  /** The handler table; None for the floating-point registers. */
  function CsrAccess(s: State, w: bv64, a: Address, rhs: bv64, op: CsrOp): Option<State>
  {
    if IsFloatCsr(a) then None
    else if a == SATP then Some(SatpHandler(s, w, rhs, op))
    else if IsReadOnly(a) then Some(SetReg(s, Rd(w), LoadCsr(s.csr, a)))
    else if a == CYCLE then
      var v := LoadCsr(s.csr, a);
      if CsrResult(op, v, rhs) != v then Some(Raise(s, IllegalInstruction, w)) else Some(SetReg(s, Rd(w), v))
    else if a == MSTATUS && s.mode == User then Some(Raise(s, IllegalInstruction, w))
    else Some(DefaultHandler(s, Rd(w), a, rhs, op))
  }

  function CsrAddress(w: bv64): (a: Address)
  {
    (CsrNumber(w) & 0xfff) as nat
  }

  /** sfence.vma; without permission it raises, and flushes all the same. */
  function FenceVma(s: State, w: bv64): State
  {
    MmuUpdate(if CsrBit(s.csr, MSTATUS, 20) || s.mode == User then Raise(s, IllegalInstruction, w) else s)
  }

  function ECall(s: State, w: bv64): State
  {
    match s.mode
    case Machine => Raise(s, ECallMMode, s.pc)
    case Supervisor => Raise(s, ECallSMode, s.pc)
    case User => Raise(s, ECallUMode, s.pc)
    case Invalid => Raise(s, IllegalInstruction, w)
  }

  function Environment(s: State, w: bv64): State
  {
    var f7, imm := Funct7(w), Rs2(w);
    if f7 == 0x09 then FenceVma(s, w)
    else if f7 == 0x11 || f7 == 0x51 then Raise(s, IllegalInstruction, w)
    else if imm == 0 then ECall(s, w)
    else if imm == 1 then Raise(s, Breakpoint, 0)
    else if imm == 2 && f7 == 0x08 then Sret(s, w)
    else if imm == 2 && f7 == 0x18 then Mret(s, w)
    else if imm == 5 && f7 == 0x08 then s
    else Raise(s, IllegalInstruction, w)
  }

  function SystemOp(s: State, w: bv64): Option<State>
  {
    var a, r := CsrAddress(w), Reg(s.regs, Rs1(w));
    match Funct3(w)
    case 0 => Some(Environment(s, w))
    case 1 => CsrAccess(s, w, a, r, ReadWrite)
    case 2 => CsrAccess(s, w, a, r, ReadSet)
    case 3 => CsrAccess(s, w, a, r, ReadClear)
    case 5 => CsrAccess(s, w, a, Rs1(w), ReadWrite)
    case 6 => CsrAccess(s, w, a, Rs1(w), ReadSet)
    case 7 => CsrAccess(s, w, a, Rs1(w), ReadClear)
    case _ => Some(Raise(s, IllegalInstruction, w))
  }

  // ---- What system instructions leave alone ------------------------------------------------------

  /** The MMU mirrors satp: its mode is bits 63 to 60, its table the page number times 4096
      modulo 2^32. */
  predicate Mirrors(s: State)
  {
    s.root == RootOf(LoadCsr(s.csr, SATP))
  }

  /** What holds across every system instruction: memory is untouched, an instruction that
      raises has not moved pc, and the MMU and its cache follow satp. */
  ghost predicate SystemFrame(s: State, t: State)
  {
    && t.mem == s.mem && t.reservations == s.reservations && t.cached == s.cached
    && (t.exc != s.exc ==> t.pc == s.pc)
    && (Mirrors(s) ==> Mirrors(t))
    && (if t.root == s.root && t.tlb == s.tlb then true else t.tlb == FLUSHED && t.root.table % 8 == 0)
  }

  lemma StoreKeepsSatp(r: Regs, a: Address, v: bv64)
    requires a != SATP
    ensures LoadCsr(StoreCsr(r, a, v), SATP) == LoadCsr(r, SATP)
  {
    hide Merge, And, SstatusMask, SsipMask;
  }

  lemma DefaultFrame(s: State, rd: bv64, a: Address, rhs: bv64, op: CsrOp)
    ensures var t := DefaultHandler(s, rd, a, rhs, op);
            && t == s.(regs := t.regs, csr := t.csr)
            && (a != SATP ==> LoadCsr(t.csr, SATP) == LoadCsr(s.csr, SATP))
  {
    hide LoadCsr, StoreCsr, CsrResult;
    if a != SATP {
      StoreKeepsSatp(s.csr, a, CsrResult(op, LoadCsr(s.csr, a), rhs));
    }
  }

  lemma UpdateFrame(s: State, t: State)
    requires t.mem == s.mem && t.reservations == s.reservations && t.cached == s.cached
    requires t.exc != s.exc ==> t.pc == s.pc
    ensures SystemFrame(s, MmuUpdate(t))
  {
    hide LoadCsr, RootOf;
  }

  lemma QuietFrame(s: State, t: State)
    requires t == s.(regs := t.regs, csr := t.csr, exc := t.exc, excData := t.excData)
    requires LoadCsr(t.csr, SATP) == LoadCsr(s.csr, SATP)
    ensures SystemFrame(s, t)
  {
    hide LoadCsr, RootOf;
  }

  lemma CsrFrame(s: State, w: bv64, a: Address, rhs: bv64, op: CsrOp)
    requires CsrAccess(s, w, a, rhs, op).Some?
    ensures SystemFrame(s, CsrAccess(s, w, a, rhs, op).value)
  {
    hide LoadCsr, CsrResult, RootOf, SystemFrame, DefaultHandler, IsFloatCsr, IsReadOnly, CsrBit;
    if a == SATP {
      var t := if CsrBit(s.csr, MSTATUS, 20) then Raise(s, IllegalInstruction, w) else s;
      DefaultFrame(t, Rd(w), a, rhs, op);
      UpdateFrame(s, DefaultHandler(t, Rd(w), a, rhs, op));
    } else {
      DefaultFrame(s, Rd(w), a, rhs, op);
      QuietFrame(s, CsrAccess(s, w, a, rhs, op).value);
    }
  }

  /** What only moves control and writes mstatus. */
  lemma ControlFrame(s: State, t: State)
    requires t == s.(pc := t.pc, mode := t.mode, csr := t.csr) && t.csr == s.csr[MSTATUS := t.csr[MSTATUS]]
    ensures SystemFrame(s, t)
  {
    hide RootOf;
  }

  lemma RaisedFrame(s: State, e: Exception, data: bv64)
    ensures SystemFrame(s, Raise(s, e, data))
  {
    hide LoadCsr, SystemFrame;
    QuietFrame(s, Raise(s, e, data));
  }

  lemma SretFrame(s: State, w: bv64)
    ensures SystemFrame(s, Sret(s, w))
  {
    hide CsrBit, LoadCsr, SretRegs, MppMode, Back, SystemFrame, StatusBits, Raise;
    SretFields(s.csr);
    RaisedFrame(s, IllegalInstruction, w);
    if Sret(s, w) != Raise(s, IllegalInstruction, w) {
      ControlFrame(s, Sret(s, w));
    }
  }

  lemma MretFrame(s: State, w: bv64)
    ensures SystemFrame(s, Mret(s, w))
  {
    hide CsrBit, LoadCsr, MretRegs, MppMode, Back, SystemFrame, StatusBits, Raise;
    MretFields(s.csr);
    RaisedFrame(s, IllegalInstruction, w);
    if Mret(s, w) != Raise(s, IllegalInstruction, w) {
      ControlFrame(s, Mret(s, w));
    }
  }

  lemma FenceFrame(s: State, w: bv64)
    ensures SystemFrame(s, FenceVma(s, w))
  {
    hide CsrBit, SystemFrame, MmuUpdate;
    UpdateFrame(s, if CsrBit(s.csr, MSTATUS, 20) || s.mode == User then Raise(s, IllegalInstruction, w) else s);
  }

  lemma ECallFrame(s: State, w: bv64)
    ensures SystemFrame(s, ECall(s, w))
  {
    hide SystemFrame, LoadCsr;
    QuietFrame(s, ECall(s, w));
  }

  lemma EnvironmentFrame(s: State, w: bv64)
    ensures SystemFrame(s, Environment(s, w))
  {
    hide LoadCsr, SystemFrame, Sret, Mret, FenceVma, ECall, Funct7, Rs2;
    SretFrame(s, w);
    MretFrame(s, w);
    FenceFrame(s, w);
    ECallFrame(s, w);
    QuietFrame(s, Raise(s, Breakpoint, 0));
    QuietFrame(s, Raise(s, IllegalInstruction, w));
    QuietFrame(s, s);
  }

  lemma SystemKeeps(s: State, w: bv64)
    requires SystemOp(s, w).Some?
    ensures SystemFrame(s, SystemOp(s, w).value)
  {
    hide SystemFrame, CsrAccess, Environment, Funct3, CsrAddress, Rs1, Reg;
    var a, r := CsrAddress(w), Reg(s.regs, Rs1(w));
    QuietFrame(s, Raise(s, IllegalInstruction, w));
    match Funct3(w)
    case 0 => EnvironmentFrame(s, w);
    case 1 => CsrFrame(s, w, a, r, ReadWrite);
    case 2 => CsrFrame(s, w, a, r, ReadSet);
    case 3 => CsrFrame(s, w, a, r, ReadClear);
    case 5 => CsrFrame(s, w, a, Rs1(w), ReadWrite);
    case 6 => CsrFrame(s, w, a, Rs1(w), ReadSet);
    case 7 => CsrFrame(s, w, a, Rs1(w), ReadClear);
    case _ =>
  }
}
