/** What the CSR and privileged instructions do, by the numbers of registers, bits and instruction words
    of the Privileged Architecture. */
module SystemResults {
  import opened Bits
  import opened PageTable
  import opened CsrFile
  import opened Hart
  import opened Traps
  import opened PageArithmetic
  import opened Numbers
  import opened AccessPath
  import opened Decoder
  import opened Isa
  import opened WalkNumbers
  import opened Atomics
  import opened System
  import opened Tlb
  import opened Machine

  // ---- The registers and their views -----------------------------------------------------------------------

  /** The bits of mstatus that sstatus shows: SIE, SPIE, UBE, SPP, VS, FS, XS, SUM, MXR, UXL and SD. */
  predicate Shown(j: BitIndex)
  {
    j == 1 || j == 5 || j == 6 || j == 8 || j == 13 || j == 14 || j == 15 || j == 16 || j == 18 || j == 19 || j == 32
    || j == 33 || j == 63
  }

  /** A bit as it is read: sstatus shows bits of mstatus, sie and sip the delegated bits of mie and mip, and
      bit 33 of mstatus reads as set. */
  predicate ViewBit(r: Regs, a: Address, j: BitIndex)
  {
    if a == 0x100 then Shown(j) && ReadBit(r[0x300], j)
    else if a == 0x104 then ReadBit(r[0x303], j) && ReadBit(r[0x304], j)
    else if a == 0x144 then ReadBit(r[0x303], j) && ReadBit(r[0x344], j)
    else if a == 0x300 then j == 33 || ReadBit(r[0x300], j)
    else ReadBit(r[a], j)
  }

  /** The register that a store goes to, and whether it can change the bit. */
  function StoredIn(a: Address): Address
  {
    if a == 0x100 then 0x300 else if a == 0x104 then 0x304 else if a == 0x144 then 0x344 else a
  }

  predicate WritableBit(r: Regs, a: Address, j: BitIndex)
  {
    if a == 0x100 then Shown(j)
    else if a == 0x104 then ReadBit(r[0x303], j)
    else if a == 0x144 then j == 1 && ReadBit(r[0x303], 1)
    else true
  }

  lemma ShownMeans(j: BitIndex)
    ensures ReadBit(SstatusMask(), j) == Shown(j)
  {}

  lemma ViewMeans(r: Regs, a: Address, j: BitIndex)
    ensures ReadBit(LoadCsr(r, a), j) == ViewBit(r, a, j)
  {
    hide ReadBit, And, WriteBit, SstatusMask, Shown;
    ShownMeans(j);
    MaskedAt(r[0x300], SstatusMask(), j);
    MaskedAt(r[0x304], r[0x303], j);
    MaskedAt(r[0x344], r[0x303], j);
    BitWritten(r[0x300], 33, true);
    if j != 33 {
      BitKept(r[0x300], 33, true, j);
    }
  }

  lemma SipWritable(d: bv64, j: BitIndex)
    ensures ReadBit(And(d, SsipMask()), j) == (j == 1 && ReadBit(d, 1))
  {
    hide ReadBit, And, SsipMask;
    MaskedAt(d, SsipMask(), j);
    OnlySsip(j);
  }

  /** The masked stores. */
  lemma MaskedStore(r: Regs, a: Address, v: bv64, j: BitIndex)
    requires a == 0x100 || a == 0x104 || a == 0x144
    ensures var q := StoreCsr(r, a, v);
            && q == r[StoredIn(a) := q[StoredIn(a)]]
            && ReadBit(q[StoredIn(a)], j) == if WritableBit(r, a, j) then ReadBit(v, j) else ReadBit(r[StoredIn(a)], j)
  {
    hide ReadBit, Merge, And, SstatusMask, SsipMask, Shown;
    if a == 0x100 {
      ShownMeans(j);
      MergeAt(r[0x300], v, SstatusMask(), j);
    } else if a == 0x104 {
      MergeAt(r[0x304], v, r[0x303], j);
    } else {
      SipWritable(r[0x303], j);
      MergeAt(r[0x344], v, And(r[0x303], SsipMask()), j);
    }
  }

  /** A store changes one register, there only what the address can write. */
  lemma StoredMeans(r: Regs, a: Address, v: bv64, j: BitIndex)
    ensures var q := StoreCsr(r, a, v);
            && q == r[StoredIn(a) := q[StoredIn(a)]]
            && ReadBit(q[StoredIn(a)], j) == if WritableBit(r, a, j) then ReadBit(v, j) else ReadBit(r[StoredIn(a)], j)
  {
    hide ReadBit, Merge, And, SstatusMask, SsipMask, Shown;
    if a == 0x100 || a == 0x104 || a == 0x144 {
      MaskedStore(r, a, v, j);
    }
  }

  /** misa tells a 64-bit hart (bit 63) with A, C, D, F, I and M, supervisor and user mode. */
  lemma MisaMeans(j: BitIndex)
    ensures ReadBit(MISA_RESET, j) <==>
            (j == 0 || j == 2 || j == 3 || j == 5 || j == 8 || j == 12 || j == 18 || j == 20 || j == 63)
  {}

  // ---- CSR instructions --------------------------------------------------------------------------------------

  lemma CsrFieldIs(w: bv64)
    ensures CsrNumber(w) & 0xfff == And(Shr(w, 20), Ones(12)) && ToNat(20) == 20 && ToNat(12) == 12
  {}

  /** The register is named by bits 31 to 20 of the word. */
  lemma CsrAddressMeans(w: bv64)
    ensures CsrAddress(w) == ToNat(w) / 0x10_0000 % 4096
  {
    hide ToNat, And, Shr, Ones, CsrNumber;
    CsrFieldIs(w);
    AddressIs(w);
    ShrMeans(w, 20);
    LowBits(Shr(w, 20), 12);
    Powers();
    assert Pow2(20) == 0x10_0000 by { TwentyPlaces(); }
  }

  lemma AddressIs(w: bv64)
    ensures CsrAddress(w) == ToNat(CsrNumber(w) & 0xfff)
  {}

  lemma TwentyPlaces()
    ensures Pow2(20) == 0x10_0000
  {
    assert Pow2(10) == 1024;
  }

  /** csrrw writes the operand, csrrs sets its bits, csrrc clears them; with an immediate the operand is the
      field of rs1. */
  predicate NewBit(f3: bv64, old_: bool, operand: bool)
  {
    if f3 == 1 || f3 == 5 then operand
    else if f3 == 2 || f3 == 6 then old_ || operand
    else old_ && !operand
  }

  function OperandOf(w: bv64, r: IntRegs): bv64
  {
    if Funct3(w) < 4 then Reg(r, Rs1(w)) else Rs1(w)
  }

  /** `v` is what the instruction makes of the register. */
  ghost predicate NewValue(f3: bv64, r: Regs, a: Address, operand: bv64, v: bv64)
  {
    forall j: BitIndex :: ReadBit(v, j) == NewBit(f3, ViewBit(r, a, j), ReadBit(operand, j))
  }

  /** `v` is what is read of the register. */
  ghost predicate OldValue(r: Regs, a: Address, v: bv64)
  {
    forall j: BitIndex :: ReadBit(v, j) == ViewBit(r, a, j)
  }

  predicate CsrFunct(f3: bv64)
  {
    f3 == 1 || f3 == 2 || f3 == 3 || f3 == 5 || f3 == 6 || f3 == 7
  }

  function OpOf(f3: bv64): CsrOp
  {
    if f3 == 1 || f3 == 5 then ReadWrite else if f3 == 2 || f3 == 6 then ReadSet else ReadClear
  }

  lemma ResultMeans(f3: bv64, r: Regs, a: Address, operand: bv64)
    ensures NewValue(f3, r, a, operand, CsrResult(OpOf(f3), LoadCsr(r, a), operand))
  {
    hide ReadBit, LoadCsr, Or, And, Not, ViewBit;
    forall j: BitIndex
      ensures ReadBit(CsrResult(OpOf(f3), LoadCsr(r, a), operand), j) ==
              NewBit(f3, ViewBit(r, a, j), ReadBit(operand, j))
    {
      ViewMeans(r, a, j);
      OrAt(LoadCsr(r, a), operand, j);
      MaskedAt(LoadCsr(r, a), Not(operand), j);
      NotAt(operand, j);
    }
  }

  lemma OldMeans(r: Regs, a: Address)
    ensures OldValue(r, a, LoadCsr(r, a))
  {
    hide ReadBit, LoadCsr, ViewBit;
    forall j: BitIndex
      ensures ReadBit(LoadCsr(r, a), j) == ViewBit(r, a, j)
    {
      ViewMeans(r, a, j);
    }
  }

  /** The dispatch on funct3. */
  lemma CsrDispatch(s: State, w: bv64)
    requires CsrFunct(Funct3(w))
    ensures SystemOp(s, w) == CsrAccess(s, w, CsrAddress(w), OperandOf(w, s.regs), OpOf(Funct3(w)))
  {
    hide Funct3, CsrAccess, CsrAddress, Reg, Rs1;
  }

  /** rd gets the old value, and the register the new one. */
  ghost predicate Accessed(s: State, w: bv64, a: Address, u: State)
  {
    exists old_, new_ :: AccessedWith(s, w, a, old_, new_, u)
  }

  ghost predicate AccessedWith(s: State, w: bv64, a: Address, old_: bv64, new_: bv64, u: State)
  {
    && OldValue(s.csr, a, old_) && NewValue(Funct3(w), s.csr, a, OperandOf(w, s.regs), new_)
    && u == s.(regs := s.regs[Index(Rd(w)) := old_], csr := StoreCsr(s.csr, a, new_))
  }

  /** The old value goes to rd and nothing is written. */
  ghost predicate OnlyRead(s: State, w: bv64, a: Address, u: State)
  {
    exists old_ :: OldValue(s.csr, a, old_) && u == s.(regs := s.regs[Index(Rd(w)) := old_])
  }

  /** The registers that instructions do not write: the machine's identity, misa and tdata1. */
  predicate FixedRegister(a: Address)
  {
    a in {0xf11, 0xf12, 0xf13, 0xf14, 0x301, 0x7a1}
  }

  /** The MMU after satp was written: its walk starts where satp says, with an empty cache. */
  function Remapped(s: State): State
  {
    s.(root := RootOf(s.csr[0x180]), tlb := FLUSHED)
  }

  lemma DefaultMeans(s: State, w: bv64, a: Address)
    ensures Accessed(s, w, a, DefaultHandler(s, Rd(w), a, OperandOf(w, s.regs), OpOf(Funct3(w))))
  {
    hide ReadBit, LoadCsr, StoreCsr, OldValue, NewValue, OperandOf, OpOf, CsrResult, Rd, Funct3, Index;
    OldMeans(s.csr, a);
    ResultMeans(Funct3(w), s.csr, a, OperandOf(w, s.regs));
    var v := LoadCsr(s.csr, a);
    var x := CsrResult(OpOf(Funct3(w)), v, OperandOf(w, s.regs));
    assert AccessedWith(s, w, a, v, x, DefaultHandler(s, Rd(w), a, OperandOf(w, s.regs), OpOf(Funct3(w))));
  }

  /** A CSR instruction to an ordinary register; mstatus is closed to user mode. */
  lemma CsrExecutes(s: State, w: bv64)
    requires Opcode(w) == 0x73 && CsrFunct(Funct3(w))
    requires var a := CsrAddress(w); a !in {1, 2, 3, 0x180, 0xc00} && !FixedRegister(a)
    ensures Execute32(s, w).Some?
    ensures var a, u := CsrAddress(w), Execute32(s, w).value;
            if a == 0x300 && s.mode == User then u == s.(exc := IllegalInstruction, excData := w)
            else Accessed(s, w, a, u)
  {
    hide Opcode, Funct3, CsrAddress, SystemOp, Atomic, Effect32, DefaultHandler, SatpHandler, Accessed, OperandOf, OpOf,
      Rd, CsrFunct;
    CsrDispatch(s, w);
    DefaultMeans(s, w, CsrAddress(w));
  }

  lemma ReadMeans(s: State, w: bv64, a: Address)
    ensures OnlyRead(s, w, a, SetReg(s, Rd(w), LoadCsr(s.csr, a)))
  {
    hide LoadCsr, OldValue, Rd, Index;
    OldMeans(s.csr, a);
  }

  /** The registers that are not written, and the cycle counter, whose change raises. */
  lemma CsrReads(s: State, w: bv64)
    requires Opcode(w) == 0x73 && CsrFunct(Funct3(w))
    requires var a := CsrAddress(w); a == 0xc00 || FixedRegister(a)
    ensures Execute32(s, w).Some?
    ensures var a, u := CsrAddress(w), Execute32(s, w).value;
            if a == 0xc00 && !NewValue(Funct3(w), s.csr, a, OperandOf(w, s.regs), s.csr[0xc00]) then
              u == s.(exc := IllegalInstruction, excData := w)
            else OnlyRead(s, w, a, u)
  {
    hide Opcode, Funct3, CsrAddress, SystemOp, Atomic, Effect32, DefaultHandler, SatpHandler, OnlyRead, OperandOf, OpOf,
      Rd, CsrFunct, CsrResult, SetReg, LoadCsr, NewValue;
    var a := CsrAddress(w);
    CsrDispatch(s, w);
    ReadMeans(s, w, a);
    CycleUnchanged(s.csr, w, OperandOf(w, s.regs));
  }

  lemma CycleUnchanged(r: Regs, w: bv64, operand: bv64)
    ensures NewValue(Funct3(w), r, 0xc00, operand, r[0xc00]) <==>
            CsrResult(OpOf(Funct3(w)), LoadCsr(r, 0xc00), operand) == LoadCsr(r, 0xc00)
  {
    hide ReadBit, ViewBit, NewBit, CsrResult, OpOf, Funct3;
    var f3 := Funct3(w);
    var x := CsrResult(OpOf(f3), LoadCsr(r, 0xc00), operand);
    ResultMeans(f3, r, 0xc00, operand);
    if NewValue(f3, r, 0xc00, operand, r[0xc00]) {
      assert SameBits(x, r[0xc00]);
      BitsDecide(x, r[0xc00]);
    }
  }

  /** satp: besides, the MMU is set up anew; under TVM, bit 20 of mstatus, the instruction raises, and does
      all this. */
  lemma SatpExecutes(s: State, w: bv64)
    requires Opcode(w) == 0x73 && CsrFunct(Funct3(w)) && CsrAddress(w) == 0x180
    ensures Execute32(s, w).Some?
    ensures var t := if Bit(ToNat(s.csr[0x300]), 20) then s.(exc := IllegalInstruction, excData := w) else s;
            exists u :: Accessed(t, w, 0x180, u) && Execute32(s, w).value == Remapped(u)
  {
    hide Opcode, Funct3, CsrAddress, SystemOp, Atomic, Effect32, DefaultHandler, Accessed, OperandOf, OpOf, Rd,
      CsrFunct, CsrBit, ToNat, RootOf, Bit, Remapped, MmuUpdate;
    CsrDispatch(s, w);
    TvmBit(s.csr);
    var t := if Bit(ToNat(s.csr[0x300]), 20) then s.(exc := IllegalInstruction, excData := w) else s;
    DefaultMeans(t, w, 0x180);
    UpdateMeans(DefaultHandler(t, Rd(w), 0x180, OperandOf(w, s.regs), OpOf(Funct3(w))));
  }

  lemma UpdateMeans(s: State)
    ensures MmuUpdate(s) == Remapped(s)
  {
    hide RootOf;
  }

  lemma TvmBit(r: Regs)
    ensures CsrBit(r, MSTATUS, 20) <==> Bit(ToNat(r[0x300]), 20)
    ensures CsrBit(r, MSTATUS, 22) <==> Bit(ToNat(r[0x300]), 22)
  {
    hide ReadBit, WriteBit, ToNat, Pow2;
    assert ToNat(20) == 20 && ToNat(22) == 22 by { TrapIndices(); }
    BitKept(r[0x300], 33, true, 20);
    BitMeans(r[0x300], 20);
    BitKept(r[0x300], 33, true, 22);
    BitMeans(r[0x300], 22);
  }

  lemma TrapIndices()
    ensures ToNat(20) == 20 && ToNat(22) == 22
  {}

  // ---- Privileged instructions -------------------------------------------------------------------------------

  const ECALL: bv64 := 0x0000_0073
  const EBREAK_WORD: bv64 := 0x0010_0073
  const SRET: bv64 := 0x1020_0073
  const WFI: bv64 := 0x1050_0073
  const MRET: bv64 := 0x3020_0073

  lemma EnvironmentIs(s: State, w: bv64)
    requires Opcode(w) == 0x73 && Funct3(w) == 0
    ensures Execute32(s, w) == Some(Environment(s, w))
  {
    hide Opcode, Funct3, CsrAddress, Environment, CsrAccess, Reg, Rs1;
  }

  lemma CallFields()
    ensures Opcode(ECALL) == 0x73 && Funct3(ECALL) == 0 && Funct7(ECALL) == 0 && Rs2(ECALL) == 0
    ensures Opcode(EBREAK_WORD) == 0x73 && Funct3(EBREAK_WORD) == 0 && Funct7(EBREAK_WORD) == 0 && Rs2(EBREAK_WORD) == 1
    ensures Opcode(WFI) == 0x73 && Funct3(WFI) == 0 && Funct7(WFI) == 8 && Rs2(WFI) == 5
  {}

  lemma ReturnFields()
    ensures Opcode(SRET) == 0x73 && Funct3(SRET) == 0 && Funct7(SRET) == 8 && Rs2(SRET) == 2
    ensures Opcode(MRET) == 0x73 && Funct3(MRET) == 0 && Funct7(MRET) == 0x18 && Rs2(MRET) == 2
  {}

  /** ecall raises the exception of its mode, with pc as its value; ebreak a breakpoint; wfi does nothing. */
  lemma CallExecutes(s: State)
    ensures Execute32(s, 0x0000_0073) ==
            Some(match s.mode
                 case User => s.(exc := ECallUMode, excData := s.pc)
                 case Supervisor => s.(exc := ECallSMode, excData := s.pc)
                 case Machine => s.(exc := ECallMMode, excData := s.pc)
                 case Invalid => s.(exc := IllegalInstruction, excData := 0x0000_0073))
    ensures Execute32(s, 0x0010_0073) == Some(s.(exc := Breakpoint, excData := 0))
    ensures Execute32(s, 0x1050_0073) == Some(s)
  {
    hide Opcode, Funct3, Funct7, Rs2, Execute32, Sret, Mret, FenceVma;
    CallFields();
    EnvironmentIs(s, ECALL);
    EnvironmentIs(s, EBREAK_WORD);
    EnvironmentIs(s, WFI);
  }

  lemma BackAgain(pc: bv64)
    ensures Add(Back(pc), 4) == pc
  {
    hide Add;
    AbsoluteCancels(pc, 4);
  }

  lemma PcViews(r: Regs)
    ensures LoadCsr(r, SEPC) == r[0x141] && LoadCsr(r, MEPC) == r[0x341]
  {}

  lemma PreviousBit(r: Regs)
    ensures CsrBit(r, SSTATUS, 8) <==> Bit(ToNat(r[0x300]), 8)
    ensures StatusOf(r).mpp == if Bit(ToNat(r[0x300]), 12) then if Bit(ToNat(r[0x300]), 11) then Machine else Invalid
                               else if Bit(ToNat(r[0x300]), 11) then Supervisor else User
  {
    hide ToNat, ReadBit, ReadBits, Pow2, CsrBit;
    ReadFields(r);
    FieldOfBits(r[0x300]);
    StatusIndices();
    BitMeans(r[0x300], 8);
    BitMeans(r[0x300], 11);
    BitMeans(r[0x300], 12);
  }

  lemma StatusIndices()
    ensures ToNat(8) == 8 && ToNat(11) == 11 && ToNat(12) == 12
  {}

  /** sret: illegal under TSR, bit 22 of mstatus, and in user mode; otherwise it goes to sepc in the mode of
      bit 8, and SIE is SPIE, SPIE set and SPP clear. MPRV goes with a return to user mode. */
  lemma SretExecutes(s: State)
    ensures Execute32(s, 0x1020_0073).Some?
    ensures var u, mstatus, old_ := Execute32(s, 0x1020_0073).value, ToNat(s.csr[0x300]), StatusOf(s.csr);
            if Bit(mstatus, 22) || s.mode == User then u == s.(exc := IllegalInstruction, excData := 0x1020_0073)
            else
              && u == s.(pc := u.pc, mode := if Bit(mstatus, 8) then Supervisor else User, csr := u.csr)
              && Add(u.pc, 4) == s.csr[0x141] && u.csr == s.csr[0x300 := u.csr[0x300]]
              && StatusOf(u.csr) == old_.(sie := old_.spie, spie := true, spp := false, mprv := old_.mprv && old_.spp)
  {
    hide Opcode, Funct3, Funct7, Rs2, Execute32, Mret, FenceVma, ECall, CsrBit, LoadCsr, Back, Add, SretRegs,
      StatusBits, ToNat, Bit;
    ReturnFields();
    EnvironmentIs(s, SRET);
    TvmBit(s.csr);
    PreviousBit(s.csr);
    PcViews(s.csr);
    BackAgain(s.csr[0x141]);
    SretFields(s.csr);
  }

  /** mret: machine mode only; it goes to mepc in the mode of bits 12 and 11, and MIE is MPIE, MPIE set and
      MPP user mode. MPRV goes with a return to another mode. */
  lemma MretExecutes(s: State)
    ensures Execute32(s, 0x3020_0073).Some?
    ensures var u, mstatus, old_ := Execute32(s, 0x3020_0073).value, ToNat(s.csr[0x300]), StatusOf(s.csr);
            if s.mode != Machine then u == s.(exc := IllegalInstruction, excData := 0x3020_0073)
            else
              && u == s.(pc := u.pc, mode := u.mode, csr := u.csr)
              && u.mode == (if Bit(mstatus, 12) then if Bit(mstatus, 11) then Machine else Invalid
                            else if Bit(mstatus, 11) then Supervisor else User)
              && Add(u.pc, 4) == s.csr[0x341] && u.csr == s.csr[0x300 := u.csr[0x300]]
              && StatusOf(u.csr) ==
                 old_.(mie := old_.mpie, mpie := true, mpp := User, mprv := old_.mprv && old_.mpp == Machine)
  {
    hide Opcode, Funct3, Funct7, Rs2, Execute32, Sret, FenceVma, ECall, CsrBit, LoadCsr, Back, Add, MretRegs,
      StatusBits, ToNat, Bit, MppMode;
    ReturnFields();
    EnvironmentIs(s, MRET);
    ReadFields(s.csr);
    PreviousBit(s.csr);
    PcViews(s.csr);
    BackAgain(s.csr[0x341]);
    MretFields(s.csr);
  }

  /** sfence.vma, with funct7 = 9, sets up the MMU anew; under TVM and in user mode it raises as well. */
  lemma FenceExecutes(s: State, w: bv64)
    requires Opcode(w) == 0x73 && Funct3(w) == 0 && Funct7(w) == 9
    ensures Execute32(s, w) ==
            Some(Remapped(if Bit(ToNat(s.csr[0x300]), 20) || s.mode == User then
                            s.(exc := IllegalInstruction, excData := w) else s))
  {
    hide Opcode, Funct3, Funct7, Rs2, Execute32, Sret, Mret, ECall, CsrBit, MmuUpdate, Remapped, ToNat, Bit;
    EnvironmentIs(s, w);
    TvmBit(s.csr);
    var denied := Bit(ToNat(s.csr[0x300]), 20) || s.mode == User;
    UpdateMeans(if denied then s.(exc := IllegalInstruction, excData := w) else s);
  }

  /** The other words of this kind are illegal: uret, hfence.bvma and hfence.gvma among them. But the field
      of rs2 alone tells ecall and ebreak. */
  lemma EnvironmentTraps(s: State, w: bv64)
    requires Opcode(w) == 0x73 && Funct3(w) == 0 && Funct7(w) != 9
    requires Funct7(w) == 0x11 || Funct7(w) == 0x51 || (Rs2(w) != 0 && Rs2(w) != 1 && Rs2(w) != 2 && Rs2(w) != 5)
             || (Rs2(w) == 2 && Funct7(w) != 8 && Funct7(w) != 0x18) || (Rs2(w) == 5 && Funct7(w) != 8)
    ensures Execute32(s, w) == Some(s.(exc := IllegalInstruction, excData := w))
  {
    hide Opcode, Funct3, Funct7, Rs2, Execute32, Sret, Mret, ECall, FenceVma;
    EnvironmentIs(s, w);
  }
}
