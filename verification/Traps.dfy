/** Trap entry, trap return, and why nested traps behave like a stack
    (interrupt.cpp; sret and mret of csrtypeinsn.cpp). */
module Traps {
  import opened Bits
  import opened CsrFile
  import opened PageTable
  import opened Hart

  /** The fields of mstatus that traps use. */
  datatype Status = Status(sie: bool, mie: bool, spie: bool, mpie: bool, spp: bool, mpp: Priv, mprv: bool, tsr: bool)

  function StatusBits(v: bv64): Status
  {
    Status(ReadBit(v, 1), ReadBit(v, 3), ReadBit(v, 5), ReadBit(v, 7), ReadBit(v, 8),
           ModeOf(ReadBits(v, 12, 11)), ReadBit(v, 17), ReadBit(v, 22))
  }

  function StatusOf(r: Regs): Status
  {
    StatusBits(r[MSTATUS])
  }

  // ---- What single writes do to the fields ------------------------------------------------

  /** Words that agree on the nine trap bits show the same fields. */
  predicate SameTrapBits(v: bv64, w: bv64)
  {
    && ReadBit(v, 1) == ReadBit(w, 1) && ReadBit(v, 3) == ReadBit(w, 3) && ReadBit(v, 5) == ReadBit(w, 5)
    && ReadBit(v, 7) == ReadBit(w, 7) && ReadBit(v, 8) == ReadBit(w, 8) && ReadBit(v, 11) == ReadBit(w, 11)
    && ReadBit(v, 12) == ReadBit(w, 12) && ReadBit(v, 17) == ReadBit(w, 17) && ReadBit(v, 22) == ReadBit(w, 22)
  }

  lemma TrapBitsStatus(v: bv64, w: bv64)
    requires SameTrapBits(v, w)
    ensures StatusBits(v) == StatusBits(w)
  {
    hide ReadBit, ReadBits;
    FieldOfBits(v);
    FieldOfBits(w);
  }

  /** The field that a bit of mstatus belongs to, set to `b`. */
  function WithField(s: Status, i: BitIndex, b: bool): Status
    requires i == 1 || i == 3 || i == 5 || i == 7 || i == 8 || i == 17
  {
    if i == 1 then s.(sie := b) else if i == 3 then s.(mie := b)
    else if i == 5 then s.(spie := b) else if i == 7 then s.(mpie := b)
    else if i == 8 then s.(spp := b) else s.(mprv := b)
  }

  lemma BitStatus(v: bv64, i: BitIndex, b: bool)
    requires i == 1 || i == 3 || i == 5 || i == 7 || i == 8 || i == 17
    ensures StatusBits(WriteBit(v, i, b)) == WithField(StatusBits(v), i, b)
  {
    hide ReadBit, WriteBit, ReadBits;
    BitWritten(v, i, b);
    FieldKept(v, 12, 11, i, b);
    forall j: BitIndex | j != i
      ensures ReadBit(WriteBit(v, i, b), j) == ReadBit(v, j)
    {
      BitKept(v, i, b, j);
    }
  }

  lemma UxlStatus(v: bv64)
    ensures StatusBits(WithUxl(v)) == StatusBits(v)
  {
    hide ReadBit, WriteBit, ReadBits;
    FieldKept(v, 12, 11, 33, true);
    forall j: BitIndex | j != 33
      ensures ReadBit(WithUxl(v), j) == ReadBit(v, j)
    {
      BitKept(v, 33, true, j);
    }
  }

  lemma WriteM(r: Regs, i: BitIndex, b: bool)
    requires i == 3 || i == 7 || i == 17
    ensures var r' := WriteCsrBit(r, MSTATUS, i, b);
            r' == r[MSTATUS := r'[MSTATUS]] && StatusOf(r') == WithField(StatusOf(r), i, b)
  {
    hide StatusBits, WithUxl, WriteBit;
    UxlStatus(r[MSTATUS]);
    BitStatus(WithUxl(r[MSTATUS]), i, b);
  }

  lemma SstatusCovers()
    ensures ReadBit(SstatusMask(), 1) && ReadBit(SstatusMask(), 5) && ReadBit(SstatusMask(), 8)
  {}

  lemma SstatusSpares()
    ensures !ReadBit(SstatusMask(), 3) && !ReadBit(SstatusMask(), 7) && !ReadBit(SstatusMask(), 11)
    ensures !ReadBit(SstatusMask(), 12) && !ReadBit(SstatusMask(), 17) && !ReadBit(SstatusMask(), 22)
  {}

  /** Writing a bit through sstatus writes that bit of mstatus. */
  lemma WriteSBit(v: bv64, i: BitIndex, b: bool, j: BitIndex)
    requires ReadBit(SstatusMask(), i)
    ensures ReadBit(Merge(v, WriteBit(And(v, SstatusMask()), i, b), SstatusMask()), j) == ReadBit(WriteBit(v, i, b), j)
  {
    hide ReadBit, WriteBit, Merge, And, SstatusMask;
    MergeAt(v, WriteBit(And(v, SstatusMask()), i, b), SstatusMask(), j);
    MaskedAt(v, SstatusMask(), j);
    if i == j {
      BitWritten(v, i, b);
      BitWritten(And(v, SstatusMask()), i, b);
    } else {
      BitKept(v, i, b, j);
      BitKept(And(v, SstatusMask()), i, b, j);
    }
  }

  lemma WriteS(r: Regs, i: BitIndex, b: bool)
    requires i == 1 || i == 5 || i == 8
    ensures var r' := WriteCsrBit(r, SSTATUS, i, b);
            r' == r[MSTATUS := r'[MSTATUS]] && StatusOf(r') == WithField(StatusOf(r), i, b)
  {
    hide StatusBits, WriteBit, ReadBit, Merge, And, SstatusMask;
    SstatusCovers();
    var v := r[MSTATUS];
    var w := WriteCsrBit(r, SSTATUS, i, b)[MSTATUS];
    forall j: BitIndex
      ensures ReadBit(w, j) == ReadBit(WriteBit(v, i, b), j)
    {
      WriteSBit(v, i, b, j);
    }
    TrapBitsStatus(w, WriteBit(v, i, b));
    BitStatus(v, i, b);
  }

  lemma WriteMppField(r: Regs, p: Priv)
    requires p != Invalid
    ensures var r' := WriteMpp(r, ModeCode(p));
            r' == r[MSTATUS := r'[MSTATUS]] && StatusOf(r') == StatusOf(r).(mpp := p)
  {
    hide ReadBit, WriteBits, ReadBits, WithUxl;
    var v := WithUxl(r[MSTATUS]);
    UxlStatus(r[MSTATUS]);
    FieldOfBits(v);
    FieldRead(v, 12, 11, ModeCode(p));
    forall j: BitIndex | j != 11 && j != 12
      ensures ReadBit(WriteBits(v, 12, 11, ModeCode(p)), j) == ReadBit(v, j)
    {
      BitOutsideField(v, 12, 11, ModeCode(p), j);
    }
  }

  /** Reading the fields through the register views. */
  lemma ReadFields(r: Regs)
    ensures CsrBit(r, SSTATUS, 1) == StatusOf(r).sie && CsrBit(r, SSTATUS, 5) == StatusOf(r).spie
    ensures CsrBit(r, SSTATUS, 8) == StatusOf(r).spp
    ensures CsrBit(r, MSTATUS, 3) == StatusOf(r).mie && CsrBit(r, MSTATUS, 7) == StatusOf(r).mpie
    ensures CsrBit(r, MSTATUS, 17) == StatusOf(r).mprv && CsrBit(r, MSTATUS, 22) == StatusOf(r).tsr
    ensures MppMode(r) == StatusOf(r).mpp
  {
    hide ReadBit, ReadBits, And, WithUxl, SstatusMask;
    UxlStatus(r[MSTATUS]);
    SstatusCovers();
    MaskedAt(r[MSTATUS], SstatusMask(), 1);
    MaskedAt(r[MSTATUS], SstatusMask(), 5);
    MaskedAt(r[MSTATUS], SstatusMask(), 8);
  }

  // ---- Trap entry and return ----------------------------------------------------------------

  datatype Trap = Interrupt(code: BitIndex) | Fault(e: Exception, data: bv64)

  const MACHINE_TIMER: BitIndex := 7

  function CauseOf(t: Trap): bv64
  {
    match t
    case Interrupt(code) => 0x8000_0000_0000_0000 | code
    case Fault(e, _) => ExceptionCode(e)
  }

  function ValueOf(t: Trap): bv64
  {
    match t
    case Interrupt(_) => 0
    case Fault(_, data) => data
  }

  /** Whether the trap is delegated to supervisor mode; the machine timer never is. */
  predicate Delegated(r: Regs, t: Trap)
  {
    match t
    case Interrupt(code) => CsrBit(r, MIDELEG, code) && code != MACHINE_TIMER
    case Fault(e, _) => CsrBit(r, MEDELEG, ExceptionCode(e))
  }

  predicate ToSupervisor(s: State, t: Trap)
  {
    Delegated(s.csr, t) && (s.mode == User || s.mode == Supervisor)
  }

  /** The handler's address: interrupts are vectored when bit 0 of the base is set. */
  function Vector(tvec: bv64, t: Trap): bv64
  {
    Plus(tvec & 0xffff_ffff_ffff_fffc, if t.Interrupt? && ReadBit(tvec, 0) then t.code * 4 else 0)
  }

  function SupervisorEntry(r: Regs, mode: Priv, pc: bv64, t: Trap): Regs
  {
    var r := StoreCsr(r, SEPC, Even(pc));
    var r := StoreCsr(r, SCAUSE, CauseOf(t));
    var r := StoreCsr(r, STVAL, ValueOf(t));
    var r := WriteCsrBit(r, SSTATUS, 5, CsrBit(r, SSTATUS, 1));
    var r := WriteCsrBit(r, SSTATUS, 1, false);
    WriteCsrBit(r, SSTATUS, 8, ModeCode(mode) != 0)
  }

  function MachineEntry(r: Regs, mode: Priv, pc: bv64, t: Trap): Regs
  {
    var r := StoreCsr(r, MEPC, Even(pc));
    var r := StoreCsr(r, MCAUSE, CauseOf(t));
    var r := StoreCsr(r, MTVAL, ValueOf(t));
    var r := WriteCsrBit(r, MSTATUS, 7, CsrBit(r, MSTATUS, 3));
    var r := WriteCsrBit(r, MSTATUS, 3, false);
    WriteMpp(r, ModeCode(mode))
  }

  /** Taking a trap. */
  function Enter(s: State, t: Trap): State
  {
    if ToSupervisor(s, t) then
      s.(sleep := false, mode := Supervisor, pc := Vector(LoadCsr(s.csr, STVEC), t),
         csr := SupervisorEntry(s.csr, s.mode, s.pc, t))
    else
      s.(sleep := false, mode := Machine, pc := Vector(LoadCsr(s.csr, MTVEC), t),
         csr := MachineEntry(s.csr, s.mode, s.pc, t))
  }

  /** Returns go one instruction short of the saved pc: the step adds its length 4 afterwards. */
  function Back(pc: bv64): bv64 { pc - 4 }

  /** A return to a less privileged mode than `keep` stands for clears MPRV. */
  function DropMprv(r: Regs, keep: bool): Regs
  {
    if keep then r else WriteCsrBit(r, MSTATUS, 17, false)
  }

  function SretRegs(r: Regs): Regs
  {
    var r := DropMprv(r, CsrBit(r, SSTATUS, 8));
    var r := WriteCsrBit(r, SSTATUS, 1, CsrBit(r, SSTATUS, 5));
    var r := WriteCsrBit(r, SSTATUS, 5, true);
    WriteCsrBit(r, SSTATUS, 8, false)
  }

  /** The sret instruction. */
  function Sret(s: State, insn: bv64): State
  {
    if CsrBit(s.csr, MSTATUS, 22) || s.mode == User then Raise(s, IllegalInstruction, insn)
    else
      s.(pc := Back(LoadCsr(s.csr, SEPC)),
         mode := if CsrBit(s.csr, SSTATUS, 8) then Supervisor else User,
         csr := SretRegs(s.csr))
  }

  function MretRegs(r: Regs): Regs
  {
    var r := DropMprv(r, MppMode(r) == Machine);
    var r := WriteCsrBit(r, MSTATUS, 3, CsrBit(r, MSTATUS, 7));
    var r := WriteCsrBit(r, MSTATUS, 7, true);
    WriteMpp(r, ModeCode(User))
  }

  /** The mret instruction. */
  function Mret(s: State, insn: bv64): State
  {
    if s.mode != Machine then Raise(s, IllegalInstruction, insn)
    else s.(pc := Back(LoadCsr(s.csr, MEPC)), mode := MppMode(s.csr), csr := MretRegs(s.csr))
  }

  // ---- Effect on the fields -------------------------------------------------------------------

  lemma SupervisorEntryFields(r: Regs, mode: Priv, pc: bv64, t: Trap)
    ensures var r' := SupervisorEntry(r, mode, pc, t);
            && r' == r[SEPC := Even(pc)][SCAUSE := CauseOf(t)][STVAL := ValueOf(t)][MSTATUS := r'[MSTATUS]]
            && StatusOf(r') == StatusOf(r).(spie := StatusOf(r).sie, sie := false, spp := ModeCode(mode) != 0)
  {
    hide StatusBits, WriteCsrBit, CsrBit, Even, CauseOf, ValueOf, MppMode;
    var r1 := StoreCsr(StoreCsr(StoreCsr(r, SEPC, Even(pc)), SCAUSE, CauseOf(t)), STVAL, ValueOf(t));
    ReadFields(r1);
    WriteS(r1, 5, CsrBit(r1, SSTATUS, 1));
    var r2 := WriteCsrBit(r1, SSTATUS, 5, CsrBit(r1, SSTATUS, 1));
    WriteS(r2, 1, false);
    var r3 := WriteCsrBit(r2, SSTATUS, 1, false);
    WriteS(r3, 8, ModeCode(mode) != 0);
  }

  lemma MachineEntryFields(r: Regs, mode: Priv, pc: bv64, t: Trap)
    requires mode != Invalid
    ensures var r' := MachineEntry(r, mode, pc, t);
            && r' == r[MEPC := Even(pc)][MCAUSE := CauseOf(t)][MTVAL := ValueOf(t)][MSTATUS := r'[MSTATUS]]
            && StatusOf(r') == StatusOf(r).(mpie := StatusOf(r).mie, mie := false, mpp := mode)
  {
    hide StatusBits, WriteCsrBit, WriteMpp, CsrBit, Even, CauseOf, ValueOf, MppMode, ModeCode, ModeOf;
    var r1 := StoreCsr(StoreCsr(StoreCsr(r, MEPC, Even(pc)), MCAUSE, CauseOf(t)), MTVAL, ValueOf(t));
    ReadFields(r1);
    WriteM(r1, 7, CsrBit(r1, MSTATUS, 3));
    var r2 := WriteCsrBit(r1, MSTATUS, 7, CsrBit(r1, MSTATUS, 3));
    WriteM(r2, 3, false);
    var r3 := WriteCsrBit(r2, MSTATUS, 3, false);
    WriteMppField(r3, mode);
  }

  lemma DropMprvFields(r: Regs, keep: bool)
    ensures var r' := DropMprv(r, keep);
            && r' == r[MSTATUS := r'[MSTATUS]]
            && StatusOf(r') == StatusOf(r).(mprv := StatusOf(r).mprv && keep)
  {
    hide StatusBits, WriteCsrBit;
    WriteM(r, 17, false);
  }

  lemma SretFields(r: Regs)
    ensures var r', u := SretRegs(r), StatusOf(r);
            && r' == r[MSTATUS := r'[MSTATUS]]
            && StatusOf(r') == u.(sie := u.spie, spie := true, spp := false, mprv := u.mprv && u.spp)
  {
    hide StatusBits, WriteCsrBit, CsrBit, MppMode, DropMprv;
    ReadFields(r);
    DropMprvFields(r, CsrBit(r, SSTATUS, 8));
    var r1 := DropMprv(r, CsrBit(r, SSTATUS, 8));
    ReadFields(r1);
    WriteS(r1, 1, CsrBit(r1, SSTATUS, 5));
    var r2 := WriteCsrBit(r1, SSTATUS, 1, CsrBit(r1, SSTATUS, 5));
    WriteS(r2, 5, true);
    var r3 := WriteCsrBit(r2, SSTATUS, 5, true);
    WriteS(r3, 8, false);
  }

  lemma MretFields(r: Regs)
    ensures var r', u := MretRegs(r), StatusOf(r);
            && r' == r[MSTATUS := r'[MSTATUS]]
            && StatusOf(r') == u.(mie := u.mpie, mpie := true, mpp := User, mprv := u.mprv && u.mpp == Machine)
  {
    hide StatusBits, WriteCsrBit, WriteMpp, CsrBit, MppMode, ModeCode, ModeOf, DropMprv;
    ReadFields(r);
    DropMprvFields(r, MppMode(r) == Machine);
    var r1 := DropMprv(r, MppMode(r) == Machine);
    ReadFields(r1);
    WriteM(r1, 3, CsrBit(r1, MSTATUS, 7));
    var r2 := WriteCsrBit(r1, MSTATUS, 3, CsrBit(r1, MSTATUS, 7));
    WriteM(r2, 7, true);
    var r3 := WriteCsrBit(r2, MSTATUS, 7, true);
    WriteMppField(r3, User);
  }
}
