/** The handlers of the 16-bit instructions (ctypeinsn.cpp), and that each does what its
    32-bit expansion does. */
module Compressed {
  import opened Bits
  import opened PageTable
  import opened Hart
  import opened Decoder
  import opened Isa
  import opened Expansion

  // ---- Immediates as the handlers collect them --------------------------------------------------

  function CImm(w: bv64): bv64
  {
    var imm := ((w >> 7) & 0x20) | ((w >> 2) & 0x1f);
    if imm & 0x20 != 0 then Sext8(imm | 0xc0) else imm
  }

  function Addi4spnImm(w: bv64): bv64
  {
    ((w >> 1) & 0x3c0) | ((w >> 7) & 0x30) | ((w >> 2) & 0x08) | ((w >> 4) & 0x04)
  }

  function LwOffset(w: bv64): bv64 { ((w << 1) & 0x40) | ((w >> 7) & 0x38) | ((w >> 4) & 0x04) }

  function LdOffset(w: bv64): bv64 { ((w << 1) & 0xc0) | ((w >> 7) & 0x38) }

  function Addi16spImm(w: bv64): bv64
  {
    var imm := ((w >> 3) & 0x200) | ((w >> 2) & 0x10) | ((w << 1) & 0x40) | ((w << 4) & 0x180) | ((w << 3) & 0x20);
    if imm & 0x200 != 0 then Sext16(imm | 0xfc00) else imm
  }

  function LuiImm(w: bv64): bv64
  {
    var imm := ((w << 5) & 0x2_0000) | ((w << 10) & 0x1_f000);
    if imm & 0x2_0000 != 0 then Sext32(imm | 0xfffc_0000) else imm
  }

  function JImm(w: bv64): bv64
  {
    var imm := ((w >> 1) & 0x800) | ((w << 2) & 0x400) | ((w >> 1) & 0x300) | ((w << 1) & 0x80)
               | ((w >> 1) & 0x40) | ((w << 3) & 0x20) | ((w >> 7) & 0x10) | ((w >> 2) & 0xe);
    if imm & 0x800 != 0 then Sext16(imm | 0xf000) else imm
  }

  function BImm(w: bv64): bv64
  {
    var imm := ((w >> 4) & 0x100) | ((w << 1) & 0xc0) | ((w << 3) & 0x20) | ((w >> 7) & 0x18) | ((w >> 2) & 0x6);
    if imm & 0x100 != 0 then Sext16(imm | 0xfe00) else imm
  }

  function LwspOffset(w: bv64): bv64 { ((w << 4) & 0xc0) | ((w >> 7) & 0x20) | ((w >> 2) & 0x1c) }
  function LdspOffset(w: bv64): bv64 { ((w << 4) & 0x1c0) | ((w >> 7) & 0x20) | ((w >> 2) & 0x18) }
  function SwspOffset(w: bv64): bv64 { ((w >> 1) & 0xc0) | ((w >> 7) & 0x3c) }
  function SdspOffset(w: bv64): bv64 { ((w >> 1) & 0x1c0) | ((w >> 7) & 0x38) }

  function Rs2Sp(w: bv64): bv64 { (w >> 2) & 0x1f }

  function Low32(v: bv64): bv64 { v & 0xffff_ffff }

  // ---- The handlers --------------------------------------------------------------------------

  /** None stands for a floating-point instruction throughout. */
  function Quadrant0(w: bv64, r: IntRegs, pc: bv64): Option<Effect>
  {
    var base := Reg(r, CRs1(w));
    match CFunct3(w)
    case 0 => Some(Effect(pc, Write(CRd(w), Add(Reg(r, SP), Addi4spnImm(w)))))
    case 2 => Some(Effect(pc, LoadTo(CRd(w), Add(base, LwOffset(w)), 4, true, false)))
    case 3 => Some(Effect(pc, LoadTo(CRd(w), Add(base, LdOffset(w)), 8, true, false)))
    case 6 => Some(Effect(pc, StoreTo(Add(base, LwOffset(w)), 4, Low32(Reg(r, CRs2(w))))))
    case 7 => Some(Effect(pc, StoreTo(Add(base, LdOffset(w)), 8, Reg(r, CRs2(w)))))
    case 4 => Some(Effect(pc, Illegal(w)))
    case _ => None
  }

  function Arithmetic(w: bv64, r: IntRegs): Action
  {
    var rd := CRs1(w);
    var a, b := Reg(r, rd), Reg(r, CRs2(w));
    match CFunct2(w)
    case 0 => Write(rd, Srl(a, CShamt(w)))
    case 1 => Write(rd, SraBy(a, CShamt(w)))
    case 2 => Write(rd, And(a, CImm(w)))
    case _ =>
      if (w >> 12) & 1 == 0 then
        match (w >> 5) & 3
        case 0 => Write(rd, Sub(a, b))
        case 1 => Write(rd, Xor(a, b))
        case 2 => Write(rd, Or(a, b))
        case _ => Write(rd, And(a, b))
      else
        match (w >> 5) & 3
        case 0 => Write(rd, Sext32(Sub(a, b)))
        case 1 => Write(rd, Sext32(Add(a, b)))
        case _ => Illegal(w)
  }

  function Quadrant1(w: bv64, r: IntRegs, pc: bv64): Effect
  {
    var rd := Rd(w);
    match CFunct3(w)
    case 0 => Effect(pc, Write(rd, Add(Reg(r, rd), CImm(w))))
    case 1 => Effect(pc, Write(rd, Sext32(Add(Reg(r, rd), CImm(w)))))
    case 2 => Effect(pc, Write(rd, CImm(w)))
    case 3 =>
      if rd == 0 then Effect(pc, Idle)
      else if rd == 2 then Effect(pc, Write(SP, Add(Reg(r, SP), Addi16spImm(w))))
      else Effect(pc, Write(rd, LuiImm(w)))
    case 4 => Effect(pc, Arithmetic(w, r))
    case 5 => Effect(Relative(pc, JImm(w), 2), Idle)
    case 6 => Effect(if Reg(r, CRs1(w)) == 0 then Relative(pc, BImm(w), 2) else pc, Idle)
    case _ => Effect(if Reg(r, CRs1(w)) != 0 then Relative(pc, BImm(w), 2) else pc, Idle)
  }

  function Quadrant2(w: bv64, r: IntRegs, pc: bv64): Option<Effect>
  {
    var rd, rs := Rd(w), Rs2Sp(w);
    match CFunct3(w)
    case 0 => Some(Effect(pc, Write(rd, Sll(Reg(r, rd), CShamt(w)))))
    case 2 => Some(Effect(pc, LoadTo(rd, Add(Reg(r, SP), LwspOffset(w)), 4, true, false)))
    case 3 => Some(Effect(pc, LoadTo(rd, Add(Reg(r, SP), LdspOffset(w)), 8, true, false)))
    case 4 =>
      if (w >> 12) & 1 == 0 then
        if rs == 0 then Some(Effect(Absolute(Reg(r, rd), 2), Idle))
        else Some(Effect(pc, Write(rd, Reg(r, rs))))
      else if rs == 0 then Some(Effect(Absolute(Reg(r, rd), 2), Write(RA, Add(pc, 2))))
      else Some(Effect(pc, Write(rd, Add(Reg(r, rd), Reg(r, rs)))))
    case 6 => Some(Effect(pc, StoreTo(Add(Reg(r, SP), SwspOffset(w)), 4, Low32(Reg(r, rs)))))
    case 7 => Some(Effect(pc, StoreTo(Add(Reg(r, SP), SdspOffset(w)), 8, Reg(r, rs))))
    case _ => None
  }

  function Effect16(w: bv64, r: IntRegs, pc: bv64): Option<Effect>
  {
    match COpcode(w)
    case 0 => Quadrant0(w, r, pc)
    case 1 => Some(Quadrant1(w, r, pc))
    case 2 => Quadrant2(w, r, pc)
    case _ => Some(Effect(pc, Illegal(w)))
  }

  // ---- What the expansions do -------------------------------------------------------------------

  lemma DoesImm(imm: bv64, rs1: bv64, f3: bv64, rd: bv64, r: IntRegs, pc: bv64)
    requires IsReg(rs1) && IsReg(rd) && (f3 == 0 || f3 == 7)
    ensures var v := Sext(imm & 0xfff, 12);
            Effect32(ExpandI(imm, rs1, f3, rd), r, pc, 2) ==
            Some(Effect(pc, Write(rd, if f3 == 0 then Add(Reg(r, rs1), v) else And(Reg(r, rs1), v))))
  {
    hide EncodeI, Opcode, Rd, Rs1, Funct3, Funct7, ImmI, Sext, Add, And, Reg;
    DecodeI(imm, rs1, f3, rd, 0x13);
  }

  lemma DoesShift(imm: bv64, rs1: bv64, f3: bv64, rd: bv64, r: IntRegs, pc: bv64)
    requires IsReg(rs1) && IsReg(rd) && imm < 0x800
    requires f3 == 1 || (f3 == 5 && (imm >> 6 == 0 || imm >> 6 == 0x10))
    ensures var a, n := Reg(r, rs1), imm & 0x3f;
            Effect32(ExpandI(imm, rs1, f3, rd), r, pc, 2) ==
            Some(Effect(pc, Write(rd, if f3 == 1 then Sll(a, n) else if imm >> 6 == 0 then Srl(a, n) else SraBy(a, n))))
  {
    hide EncodeI, Opcode, Rd, Rs1, Funct3, Funct7, ImmI, Sext, Sll, Srl, SraBy, Reg, Shamt;
    DecodeI(imm, rs1, f3, rd, 0x13);
    DecodeShift(imm, rs1, f3, rd, 0x13);
  }

  lemma DoesAddiw(imm: bv64, rs1: bv64, rd: bv64, r: IntRegs, pc: bv64)
    requires IsReg(rs1) && IsReg(rd)
    ensures Effect32(EncodeI(imm, rs1, 0, rd, 0x1b), r, pc, 2) ==
            Some(Effect(pc, Write(rd, Sext32(Add(Reg(r, rs1), Sext(imm & 0xfff, 12))))))
  {
    hide EncodeI, Opcode, Rd, Rs1, Funct3, Funct7, ImmI, Sext, Add, Reg, Sext32;
    DecodeI(imm, rs1, 0, rd, 0x1b);
  }

  lemma DoesLoad(imm: bv64, rs1: bv64, f3: bv64, rd: bv64, r: IntRegs, pc: bv64)
    requires IsReg(rs1) && IsReg(rd) && (f3 == 2 || f3 == 3)
    ensures Effect32(EncodeI(imm, rs1, f3, rd, 0x03), r, pc, 2) ==
            Some(Effect(pc, LoadTo(rd, Add(Reg(r, rs1), Sext(imm & 0xfff, 12)), if f3 == 2 then 4 else 8, true, true)))
  {
    hide EncodeI, Opcode, Rd, Rs1, Funct3, ImmI, Sext, Add, Reg;
    DecodeI(imm, rs1, f3, rd, 0x03);
  }

  lemma DoesStore(imm: bv64, rs2: bv64, rs1: bv64, f3: bv64, r: IntRegs, pc: bv64)
    requires IsReg(rs2) && IsReg(rs1) && (f3 == 2 || f3 == 3)
    ensures Effect32(EncodeS(imm, rs2, rs1, f3, 0x23), r, pc, 2) ==
            Some(Effect(pc, StoreTo(Add(Reg(r, rs1), Sext(imm & 0xfff, 12)), if f3 == 2 then 4 else 8, Reg(r, rs2))))
  {
    hide EncodeS, Opcode, Rs2, Rs1, Funct3, ImmS, Sext, Add, Reg;
    DecodeS(imm, rs2, rs1, f3, 0x23);
  }

  lemma DoesReg(f7: bv64, rs2: bv64, rs1: bv64, f3: bv64, rd: bv64, r: IntRegs, pc: bv64)
    requires IsReg(rs2) && IsReg(rs1) && IsReg(rd) && f3 < 8 && (f7 == 0 || (f7 == 0x20 && f3 == 0))
    ensures var a, b := Reg(r, rs1), Reg(r, rs2);
            Effect32(ExpandR(f7, rs2, rs1, f3, rd), r, pc, 2) ==
            Some(Effect(pc, Write(rd, if f7 == 0 then BaseOp(f3, a, b) else Sub(a, b))))
  {
    hide EncodeR, Opcode, Rd, Rs2, Rs1, Funct3, Funct7, Reg, BaseOp, Sub;
    DecodeR(f7, rs2, rs1, f3, rd, 0x33);
  }

  lemma DoesRegW(f7: bv64, rs2: bv64, rs1: bv64, rd: bv64, r: IntRegs, pc: bv64)
    requires IsReg(rs2) && IsReg(rs1) && IsReg(rd) && (f7 == 0 || f7 == 0x20)
    ensures var a, b := Reg(r, rs1), Reg(r, rs2);
            Effect32(EncodeR(f7, rs2, rs1, 0, rd, 0x3b), r, pc, 2) ==
            Some(Effect(pc, Write(rd, Sext32(if f7 == 0 then Add(a, b) else Sub(a, b)))))
  {
    hide EncodeR, Opcode, Rd, Rs2, Rs1, Funct3, Funct7, Reg, Add, Sub, Sext32;
    DecodeR(f7, rs2, rs1, 0, rd, 0x3b);
  }

  lemma DoesLui(imm: bv64, rd: bv64, r: IntRegs, pc: bv64)
    requires IsReg(rd)
    ensures Effect32(EncodeU(imm, rd, 0x37), r, pc, 2) == Some(Effect(pc, Write(rd, Sext(imm & 0xffff_f000, 32))))
  {
    hide EncodeU, Opcode, Rd, ImmU, Sext;
    DecodeU(imm, rd, 0x37);
  }

  lemma DoesJump(imm: bv64, rd: bv64, r: IntRegs, pc: bv64)
    requires IsReg(rd)
    ensures Effect32(EncodeJ(imm, rd, 0x6f), r, pc, 2) ==
            Some(Effect(Relative(pc, Sext(imm & 0x1f_fffe, 21), 2), Write(rd, Add(pc, 2))))
  {
    hide EncodeJ, Opcode, Rd, ImmJ, Sext, Add, Relative;
    DecodeJ(imm, rd, 0x6f);
  }

  lemma DoesJumpReg(rs1: bv64, rd: bv64, r: IntRegs, pc: bv64)
    requires IsReg(rs1) && IsReg(rd)
    ensures Effect32(EncodeI(0, rs1, 0, rd, 0x67), r, pc, 2) ==
            Some(Effect(Absolute(Even(Reg(r, rs1)), 2), Write(rd, Add(pc, 2))))
  {
    hide EncodeI, Opcode, Rd, Rs1, ImmI, Sext, Add, Absolute, Even, Reg, Funct3;
    DecodeI(0, rs1, 0, rd, 0x67);
    ZeroImm();
    AddZero(Reg(r, rs1));
  }

  lemma DoesBranch(imm: bv64, rs1: bv64, f3: bv64, r: IntRegs, pc: bv64)
    requires IsReg(rs1) && r[0] == 0 && (f3 == 0 || f3 == 1)
    ensures Effect32(EncodeB(imm, ZERO, rs1, f3, 0x63), r, pc, 2) ==
            Some(Effect(if (Reg(r, rs1) == 0) == (f3 == 0) then Relative(pc, Sext(imm & 0x1ffe, 13), 2) else pc, Idle))
  {
    hide EncodeB, Opcode, Rs1, Rs2, Funct3, ImmB, Sext, Relative, Reg, Below, BelowSigned;
    DecodeB(imm, ZERO, rs1, f3, 0x63);
    ReadZero(r);
  }

  lemma ZeroImm()
    ensures Sext(0 & 0xfff, 12) == 0
  {}

  lemma AddZero(x: bv64)
    ensures Add(x, 0) == x && Add(0, x) == x
  {}

  /** Register 0 reads as zero while the step has just cleared it. */
  lemma ReadZero(r: IntRegs)
    requires r[0] == 0
    ensures Reg(r, ZERO) == 0
  {}

  // ---- The handlers collect the immediates of the formats ---------------------------------------

  lemma SameCImm(w: bv64)
    ensures Sext(ImmCI(w) & 0xfff, 12) == CImm(w)
  {}

  lemma SameAddi4spnImm(w: bv64)
    ensures Sext(ImmCIW(w) & 0xfff, 12) == Addi4spnImm(w)
  {}

  lemma SameLwOffset(w: bv64)
    ensures Sext(ImmCLW(w) & 0xfff, 12) == LwOffset(w)
  {}

  lemma SameLdOffset(w: bv64)
    ensures Sext(ImmCLD(w) & 0xfff, 12) == LdOffset(w)
  {}

  lemma SameAddi16spImm(w: bv64)
    ensures Sext(ImmCI16(w) & 0xfff, 12) == Addi16spImm(w)
  {}

  lemma SameLuiImm(w: bv64)
    ensures Sext(ImmCLUI(w) & 0xffff_f000, 32) == LuiImm(w)
  {}

  lemma SameBImm(w: bv64)
    ensures Sext(ImmCB(w) & 0x1ffe, 13) == BImm(w)
  {}

  lemma SameLwspOffset(w: bv64)
    ensures Sext(ImmLWSP(w) & 0xfff, 12) == LwspOffset(w)
  {}

  lemma SameLdspOffset(w: bv64)
    ensures Sext(ImmLDSP(w) & 0xfff, 12) == LdspOffset(w)
  {}

  lemma SameSwspOffset(w: bv64)
    ensures Sext(ImmSWSP(w) & 0xfff, 12) == SwspOffset(w)
  {}

  lemma SameSdspOffset(w: bv64)
    ensures Sext(ImmSDSP(w) & 0xfff, 12) == SdspOffset(w)
  {}

  lemma SameJImm(w: bv64)
    ensures Sext(ImmCJ(w) & 0x1f_fffe, 21) == JImm(w)
  {
    hide Sext, ImmCJ, JImm;
    if w & 0x1000 == 0 {
      ForwardJImm(w);
    } else {
      BackwardJImm(w);
    }
  }

  lemma ForwardJImm(w: bv64)
    requires w & 0x1000 == 0
    ensures Sext(ImmCJ(w) & 0x1f_fffe, 21) == JImm(w)
  {}

  lemma BackwardJImm(w: bv64)
    requires w & 0x1000 != 0
    ensures Sext(ImmCJ(w) & 0x1f_fffe, 21) == JImm(w)
  {}

  lemma SameWideRegs(w: bv64)
    ensures RegD(w) == Rd(w) && IsReg(Rd(w))
  {}

  lemma SameSource(w: bv64)
    ensures RegS(w) == Rs2Sp(w) && IsReg(Rs2Sp(w))
  {}

  lemma SameShamt(w: bv64)
    ensures ShamtC(w) == CShamt(w)
  {}

  lemma SameRegs(w: bv64)
    ensures RegD3(w) == CRs1(w) && RegS3(w) == CRd(w) && RegS3(w) == CRs2(w)
    ensures IsReg(CRs1(w)) && IsReg(CRd(w))
  {
    hide Popular;
    SmallFields(w);
    PopularIsReg(Field(w, 9, 7));
    PopularIsReg(Field(w, 4, 2));
  }

  lemma PopularIsReg(i: bv64)
    requires i < 8
    ensures IsReg(Popular(i))
  {}

  lemma SmallFields(w: bv64)
    ensures Field(w, 9, 7) < 8 && Field(w, 4, 2) < 8
  {}

  lemma SameSelectors(w: bv64)
    ensures Field(w, 15, 13) == CFunct3(w) && Field(w, 11, 10) == CFunct2(w) && Field(w, 1, 0) == COpcode(w)
    ensures Field(w, 12, 12) == (w >> 12) & 1 && Field(w, 6, 5) == (w >> 5) & 3
  {}

  lemma SelectorBounds(w: bv64)
    ensures CFunct3(w) < 8 && CFunct2(w) < 4 && COpcode(w) < 4 && (w >> 12) & 1 < 2 && (w >> 5) & 3 < 4
  {}

  /** The counts of the shift expansions; 0x400 marks the arithmetic shift. */
  lemma ShiftCounts(w: bv64)
    ensures ShamtC(w) < 0x800 && ShamtA(w) < 0x800
    ensures ShamtC(w) & 0x3f == ShamtC(w) && ShamtC(w) >> 6 == 0
    ensures ShamtA(w) & 0x3f == ShamtC(w) && ShamtA(w) >> 6 == 0x10
  {}

  // ---- The equivalence ------------------------------------------------------------------------

  /** An action up to what the step makes irrelevant: writes to x0, bytes a store leaves out,
      and what a faulting load does to rd. */
  function Canonical(a: Action): Action
  {
    match a
    case Write(rd, _) => if rd == 0 then Idle else a
    case LoadTo(rd, address, n, signed, _) => LoadTo(rd, address, n, signed, true)
    case StoreTo(address, n, v) => if n == 4 then StoreTo(address, 4, Low32(v)) else a
    case _ => a
  }

  lemma TruncateTwice(v: bv64)
    ensures Low32(Low32(v)) == Low32(v)
  {}

  predicate Alike(e: Option<Effect>, f: Option<Effect>)
  {
    && e.Some? && f.Some?
    && e.value.pc == f.value.pc
    && Canonical(e.value.act) == Canonical(f.value.act)
  }

  lemma AlikeAddi4spn(w: bv64, r: IntRegs, pc: bv64)
    requires CFunct3(w) == 0
    ensures Expand0(w).Some? && Alike(Quadrant0(w, r, pc), Effect32(Expand0(w).value, r, pc, 2))
  {
    hide ExpandI, Effect32, Sext, Field, CFunct3, CRd, RegS3, Add, Reg, ImmCIW, Addi4spnImm;
    SameSelectors(w);
    SameRegs(w);
    SameAddi4spnImm(w);
    DoesImm(ImmCIW(w), SP, 0, RegS3(w), r, pc);
  }

  lemma AlikeLw(w: bv64, r: IntRegs, pc: bv64)
    requires CFunct3(w) == 2
    ensures Expand0(w).Some? && Alike(Quadrant0(w, r, pc), Effect32(Expand0(w).value, r, pc, 2))
  {
    hide EncodeI, Effect32, Sext, Field, CFunct3, CRd, CRs1, CRs2, RegD3, RegS3, Add, Reg, Low32, ImmCLW, LwOffset;
    SameSelectors(w);
    SameRegs(w);
    SameLwOffset(w);
    DoesLoad(ImmCLW(w), RegD3(w), 2, RegS3(w), r, pc);
  }

  lemma AlikeLd(w: bv64, r: IntRegs, pc: bv64)
    requires CFunct3(w) == 3
    ensures Expand0(w).Some? && Alike(Quadrant0(w, r, pc), Effect32(Expand0(w).value, r, pc, 2))
  {
    hide EncodeI, Effect32, Sext, Field, CFunct3, CRd, CRs1, CRs2, RegD3, RegS3, Add, Reg, Low32, ImmCLD, LdOffset;
    SameSelectors(w);
    SameRegs(w);
    SameLdOffset(w);
    DoesLoad(ImmCLD(w), RegD3(w), 3, RegS3(w), r, pc);
  }

  lemma AlikeSw(w: bv64, r: IntRegs, pc: bv64)
    requires CFunct3(w) == 6
    ensures Expand0(w).Some? && Alike(Quadrant0(w, r, pc), Effect32(Expand0(w).value, r, pc, 2))
  {
    hide EncodeS, Effect32, Sext, Field, CFunct3, CRd, CRs1, CRs2, RegD3, RegS3, Add, Reg, Low32, ImmCLW, LwOffset;
    SameSelectors(w);
    SameRegs(w);
    SameLwOffset(w);
    TruncateTwice(Reg(r, CRs2(w)));
    DoesStore(ImmCLW(w), RegS3(w), RegD3(w), 2, r, pc);
  }

  lemma AlikeSd(w: bv64, r: IntRegs, pc: bv64)
    requires CFunct3(w) == 7
    ensures Expand0(w).Some? && Alike(Quadrant0(w, r, pc), Effect32(Expand0(w).value, r, pc, 2))
  {
    hide EncodeS, Effect32, Sext, Field, CFunct3, CRd, CRs1, CRs2, RegD3, RegS3, Add, Reg, Low32, ImmCLD, LdOffset;
    SameSelectors(w);
    SameRegs(w);
    SameLdOffset(w);
    DoesStore(ImmCLD(w), RegS3(w), RegD3(w), 3, r, pc);
  }

  lemma AlikeAddi(w: bv64, r: IntRegs, pc: bv64)
    requires CFunct3(w) == 0
    ensures Expand1(w).Some? && Alike(Some(Quadrant1(w, r, pc)), Effect32(Expand1(w).value, r, pc, 2))
  {
    hide ExpandI, EncodeI, Effect32, Sext, Field, CFunct3, Rd, RegD, Add, Reg, ImmCI, CImm, Sext32, Arithmetic,
      Relative;
    SameSelectors(w);
    SameWideRegs(w);
    SameCImm(w);
    DoesImm(ImmCI(w), RegD(w), 0, RegD(w), r, pc);
  }

  lemma AlikeAddiw(w: bv64, r: IntRegs, pc: bv64)
    requires CFunct3(w) == 1
    ensures Expand1(w).Some? && Alike(Some(Quadrant1(w, r, pc)), Effect32(Expand1(w).value, r, pc, 2))
  {
    hide ExpandI, EncodeI, Effect32, Sext, Field, CFunct3, Rd, RegD, Add, Reg, ImmCI, CImm, Sext32, Arithmetic,
      Relative;
    SameSelectors(w);
    SameWideRegs(w);
    SameCImm(w);
    DoesAddiw(ImmCI(w), RegD(w), RegD(w), r, pc);
  }

  lemma AlikeLi(w: bv64, r: IntRegs, pc: bv64)
    requires r[0] == 0 && CFunct3(w) == 2
    ensures Expand1(w).Some? && Alike(Some(Quadrant1(w, r, pc)), Effect32(Expand1(w).value, r, pc, 2))
  {
    hide ExpandI, EncodeI, Effect32, Sext, Field, CFunct3, Rd, RegD, Add, Reg, ImmCI, CImm, Sext32, Arithmetic,
      Relative;
    SameSelectors(w);
    SameWideRegs(w);
    SameCImm(w);
    ReadZero(r);
    AddZero(CImm(w));
    DoesImm(ImmCI(w), ZERO, 0, RegD(w), r, pc);
  }

  lemma AlikeAddi16sp(w: bv64, r: IntRegs, pc: bv64)
    requires CFunct3(w) == 3 && Rd(w) == SP
    ensures Expand1(w).Some? && Alike(Some(Quadrant1(w, r, pc)), Effect32(Expand1(w).value, r, pc, 2))
  {
    hide ExpandI, EncodeU, Effect32, Sext, Field, CFunct3, Rd, RegD, Add, Reg, ImmCI16, ImmCLUI, Addi16spImm, LuiImm,
      Arithmetic, Relative;
    SameSelectors(w);
    SameWideRegs(w);
    SameAddi16spImm(w);
    DoesImm(ImmCI16(w), SP, 0, SP, r, pc);
  }

  lemma AlikeLui(w: bv64, r: IntRegs, pc: bv64)
    requires CFunct3(w) == 3 && Rd(w) != SP
    ensures Expand1(w).Some? && Alike(Some(Quadrant1(w, r, pc)), Effect32(Expand1(w).value, r, pc, 2))
  {
    hide ExpandI, EncodeU, Effect32, Sext, Field, CFunct3, Rd, RegD, Add, Reg, ImmCI16, ImmCLUI, Addi16spImm, LuiImm,
      Arithmetic, Relative;
    SameSelectors(w);
    SameWideRegs(w);
    SameLuiImm(w);
    DoesLui(ImmCLUI(w), RegD(w), r, pc);
  }

  lemma AlikeJump(w: bv64, r: IntRegs, pc: bv64)
    requires CFunct3(w) == 5
    ensures Expand1(w).Some? && Alike(Some(Quadrant1(w, r, pc)), Effect32(Expand1(w).value, r, pc, 2))
  {
    hide EncodeJ, Effect32, Sext, Field, CFunct3, Add, Relative, Reg, ImmCJ, JImm;
    SameSelectors(w);
    SameJImm(w);
    DoesJump(ImmCJ(w), ZERO, r, pc);
  }

  lemma AlikeBeqz(w: bv64, r: IntRegs, pc: bv64)
    requires r[0] == 0 && CFunct3(w) == 6
    ensures Expand1(w).Some? && Alike(Some(Quadrant1(w, r, pc)), Effect32(Expand1(w).value, r, pc, 2))
  {
    hide EncodeB, Effect32, Sext, Field, CFunct3, CRs1, RegD3, Relative, Reg, ImmCB, BImm, Arithmetic, Add;
    SameSelectors(w);
    SameRegs(w);
    SameBImm(w);
    DoesBranch(ImmCB(w), RegD3(w), 0, r, pc);
  }

  lemma AlikeBnez(w: bv64, r: IntRegs, pc: bv64)
    requires r[0] == 0 && CFunct3(w) == 7
    ensures Expand1(w).Some? && Alike(Some(Quadrant1(w, r, pc)), Effect32(Expand1(w).value, r, pc, 2))
  {
    hide EncodeB, Effect32, Sext, Field, CFunct3, CRs1, RegD3, Relative, Reg, ImmCB, BImm, Arithmetic, Add;
    SameSelectors(w);
    SameRegs(w);
    SameBImm(w);
    DoesBranch(ImmCB(w), RegD3(w), 1, r, pc);
  }

  lemma AlikeShifts(w: bv64, r: IntRegs, pc: bv64)
    requires CFunct2(w) == 0 || CFunct2(w) == 1
    ensures ExpandArithmetic(w).Some?
    ensures Alike(Some(Effect(pc, Arithmetic(w, r))), Effect32(ExpandArithmetic(w).value, r, pc, 2))
  {
    hide ExpandI, Effect32, Field, CFunct2, CRs1, CRs2, RegD3, RegS3, Reg, ShamtC, ShamtA, CShamt, Srl, SraBy, Sll;
    SameSelectors(w);
    SameRegs(w);
    SameShamt(w);
    ShiftCounts(w);
    DoesShift(ShamtC(w), RegD3(w), 5, RegD3(w), r, pc);
    DoesShift(ShamtA(w), RegD3(w), 5, RegD3(w), r, pc);
  }

  lemma AlikeAndi(w: bv64, r: IntRegs, pc: bv64)
    requires CFunct2(w) == 2
    ensures ExpandArithmetic(w).Some?
    ensures Alike(Some(Effect(pc, Arithmetic(w, r))), Effect32(ExpandArithmetic(w).value, r, pc, 2))
  {
    hide ExpandI, Effect32, Field, CFunct2, CRs1, CRs2, RegD3, RegS3, Reg, ImmCI, CImm, Sext, And;
    SameSelectors(w);
    SameRegs(w);
    SameCImm(w);
    DoesImm(ImmCI(w), RegD3(w), 7, RegD3(w), r, pc);
  }

  lemma AlikeSubXor(w: bv64, r: IntRegs, pc: bv64)
    requires CFunct2(w) == 3 && (w >> 12) & 1 == 0 && (w >> 5) & 3 < 2
    ensures ExpandArithmetic(w).Some?
    ensures Alike(Some(Effect(pc, Arithmetic(w, r))), Effect32(ExpandArithmetic(w).value, r, pc, 2))
  {
    hide ExpandR, Effect32, Field, CFunct2, CRs1, CRs2, RegD3, RegS3, Reg, Sub, Xor, Or, And;
    SameSelectors(w);
    SameRegs(w);
    DoesReg(0x20, RegS3(w), RegD3(w), 0, RegD3(w), r, pc);
    DoesReg(0, RegS3(w), RegD3(w), 4, RegD3(w), r, pc);
  }

  lemma AlikeOrAnd(w: bv64, r: IntRegs, pc: bv64)
    requires CFunct2(w) == 3 && (w >> 12) & 1 == 0 && (w >> 5) & 3 >= 2
    ensures ExpandArithmetic(w).Some?
    ensures Alike(Some(Effect(pc, Arithmetic(w, r))), Effect32(ExpandArithmetic(w).value, r, pc, 2))
  {
    hide ExpandR, Effect32, Field, CFunct2, CRs1, CRs2, RegD3, RegS3, Reg, Sub, Xor, Or, And;
    SameSelectors(w);
    SameRegs(w);
    DoesReg(0, RegS3(w), RegD3(w), 6, RegD3(w), r, pc);
    DoesReg(0, RegS3(w), RegD3(w), 7, RegD3(w), r, pc);
  }

  lemma AlikeWords(w: bv64, r: IntRegs, pc: bv64)
    requires CFunct2(w) == 3 && (w >> 12) & 1 != 0 && ExpandArithmetic(w).Some?
    ensures Alike(Some(Effect(pc, Arithmetic(w, r))), Effect32(ExpandArithmetic(w).value, r, pc, 2))
  {
    hide EncodeR, Effect32, Field, CFunct2, CRs1, CRs2, RegD3, RegS3, Reg, Sub, Add, Sext32;
    SameSelectors(w);
    SameRegs(w);
    DoesRegW(0x20, RegS3(w), RegD3(w), RegD3(w), r, pc);
    DoesRegW(0, RegS3(w), RegD3(w), RegD3(w), r, pc);
  }

  lemma AlikeSlli(w: bv64, r: IntRegs, pc: bv64)
    requires CFunct3(w) == 0
    ensures Expand2(w).Some? && Alike(Quadrant2(w, r, pc), Effect32(Expand2(w).value, r, pc, 2))
  {
    hide ExpandI, Effect32, Field, CFunct3, Rd, Rs2Sp, RegD, RegS, Reg, ShamtC, CShamt, Sll;
    SameSelectors(w);
    SameWideRegs(w);
    SameShamt(w);
    ShiftCounts(w);
    DoesShift(ShamtC(w), RegD(w), 1, RegD(w), r, pc);
  }

  lemma AlikeStackLoads(w: bv64, r: IntRegs, pc: bv64)
    requires CFunct3(w) == 2 || CFunct3(w) == 3
    ensures Expand2(w).Some? && Alike(Quadrant2(w, r, pc), Effect32(Expand2(w).value, r, pc, 2))
  {
    hide EncodeI, Effect32, Sext, Field, CFunct3, Rd, Rs2Sp, RegD, RegS, Reg, Add, ImmLWSP, ImmLDSP, LwspOffset,
      LdspOffset;
    SameSelectors(w);
    SameWideRegs(w);
    SameLwspOffset(w);
    SameLdspOffset(w);
    DoesLoad(ImmLWSP(w), SP, 2, RegD(w), r, pc);
    DoesLoad(ImmLDSP(w), SP, 3, RegD(w), r, pc);
  }

  lemma AlikeSwsp(w: bv64, r: IntRegs, pc: bv64)
    requires CFunct3(w) == 6
    ensures Expand2(w).Some? && Alike(Quadrant2(w, r, pc), Effect32(Expand2(w).value, r, pc, 2))
  {
    hide EncodeS, Effect32, Sext, Field, CFunct3, Rd, Rs2Sp, RegD, RegS, Reg, Add, ImmSWSP, SwspOffset, Low32, Absolute;
    SameSelectors(w);
    SameSource(w);
    SameSwspOffset(w);
    TruncateTwice(Reg(r, Rs2Sp(w)));
    DoesStore(ImmSWSP(w), RegS(w), SP, 2, r, pc);
  }

  lemma AlikeSdsp(w: bv64, r: IntRegs, pc: bv64)
    requires CFunct3(w) == 7
    ensures Expand2(w).Some? && Alike(Quadrant2(w, r, pc), Effect32(Expand2(w).value, r, pc, 2))
  {
    hide EncodeS, Effect32, Sext, Field, CFunct3, Rd, Rs2Sp, RegD, RegS, Reg, Add, ImmSDSP, SdspOffset, Low32, Absolute;
    SameSelectors(w);
    SameSource(w);
    SameSdspOffset(w);
    DoesStore(ImmSDSP(w), RegS(w), SP, 3, r, pc);
  }

  lemma AlikeMoves(w: bv64, r: IntRegs, pc: bv64)
    requires r[0] == 0 && CFunct3(w) == 4 && Rs2Sp(w) != 0
    ensures Expand2(w).Some? && Alike(Quadrant2(w, r, pc), Effect32(Expand2(w).value, r, pc, 2))
  {
    hide ExpandR, Effect32, Field, CFunct3, Rd, Rs2Sp, RegD, RegS, Reg, Add;
    SameSelectors(w);
    SameWideRegs(w);
    SameSource(w);
    ReadZero(r);
    AddZero(Reg(r, Rs2Sp(w)));
    DoesReg(0, RegS(w), ZERO, 0, RegD(w), r, pc);
    DoesReg(0, RegS(w), RegD(w), 0, RegD(w), r, pc);
  }

  /** The jumps through a register: c.jr and c.jalr. */
  predicate JumpsThroughRegister(w: bv64)
  {
    COpcode(w) == 2 && CFunct3(w) == 4 && Rs2Sp(w) == 0
  }

  /** c.jr and c.jalr do not clear bit 0 of the target; their expansions do. */
  lemma AlmostAlikeJumps(w: bv64, r: IntRegs, pc: bv64)
    requires CFunct3(w) == 4 && Rs2Sp(w) == 0 && ((w >> 12) & 1 == 0 || Rd(w) != 0)
    ensures Expand2(w).Some? && Effect32(Expand2(w).value, r, pc, 2).Some? && Quadrant2(w, r, pc).Some?
    ensures var e, f := Quadrant2(w, r, pc).value, Effect32(Expand2(w).value, r, pc, 2).value;
            && e.pc == Absolute(Reg(r, Rd(w)), 2) && f.pc == Absolute(Even(Reg(r, Rd(w))), 2)
            && Canonical(e.act) == Canonical(f.act) && (e.act.Idle? || e.act.Write?)
  {
    hide EncodeI, Effect32, Field, CFunct3, Rd, Rs2Sp, RegD, RegS, Reg, Add, Absolute, Even;
    SameSelectors(w);
    SameWideRegs(w);
    SameSource(w);
    DoesJumpReg(RegD(w), ZERO, r, pc);
    DoesJumpReg(RegD(w), RA, r, pc);
  }

  lemma AlikeArithmetic(w: bv64, r: IntRegs, pc: bv64)
    requires ExpandArithmetic(w).Some?
    ensures Alike(Some(Effect(pc, Arithmetic(w, r))), Effect32(ExpandArithmetic(w).value, r, pc, 2))
  {
    hide Alike, Arithmetic, ExpandArithmetic, Effect32, CFunct2;
    SelectorBounds(w);
    if CFunct2(w) < 2 {
      AlikeShifts(w, r, pc);
    } else if CFunct2(w) == 2 {
      AlikeAndi(w, r, pc);
    } else if (w >> 12) & 1 != 0 {
      AlikeWords(w, r, pc);
    } else if (w >> 5) & 3 < 2 {
      AlikeSubXor(w, r, pc);
    } else {
      AlikeOrAnd(w, r, pc);
    }
  }

  lemma Alike0(w: bv64, r: IntRegs, pc: bv64)
    requires Expand0(w).Some?
    ensures Alike(Quadrant0(w, r, pc), Effect32(Expand0(w).value, r, pc, 2))
  {
    hide Alike, Quadrant0, Effect32, CFunct3, Field, ExpandI, EncodeI, EncodeS;
    SameSelectors(w);
    match CFunct3(w)
    case 0 => AlikeAddi4spn(w, r, pc);
    case 2 => AlikeLw(w, r, pc);
    case 3 => AlikeLd(w, r, pc);
    case 6 => AlikeSw(w, r, pc);
    case 7 => AlikeSd(w, r, pc);
    case _ =>
  }

  lemma Alike1(w: bv64, r: IntRegs, pc: bv64)
    requires r[0] == 0 && Expand1(w).Some?
    ensures Alike(Some(Quadrant1(w, r, pc)), Effect32(Expand1(w).value, r, pc, 2))
  {
    hide Alike, Quadrant1, Effect32, CFunct3, Expand1, Rd;
    SelectorBounds(w);
    match CFunct3(w)
    case 0 => AlikeAddi(w, r, pc);
    case 1 => AlikeAddiw(w, r, pc);
    case 2 => AlikeLi(w, r, pc);
    case 3 =>
      if Rd(w) == SP {
        AlikeAddi16sp(w, r, pc);
      } else {
        AlikeLui(w, r, pc);
      }
    case 4 => AlikeOp4(w, r, pc);
    case 5 => AlikeJump(w, r, pc);
    case 6 => AlikeBeqz(w, r, pc);
    case 7 => AlikeBnez(w, r, pc);
  }

  lemma AlikeOp4(w: bv64, r: IntRegs, pc: bv64)
    requires CFunct3(w) == 4 && Expand1(w).Some?
    ensures Alike(Some(Quadrant1(w, r, pc)), Effect32(Expand1(w).value, r, pc, 2))
  {
    hide Alike, Effect32, CFunct3, Arithmetic, ExpandArithmetic, Field;
    SameSelectors(w);
    AlikeArithmetic(w, r, pc);
  }

  lemma Alike2(w: bv64, r: IntRegs, pc: bv64)
    requires r[0] == 0 && Expand2(w).Some? && !(CFunct3(w) == 4 && Rs2Sp(w) == 0)
    ensures Alike(Quadrant2(w, r, pc), Effect32(Expand2(w).value, r, pc, 2))
  {
    hide Alike, Quadrant2, Effect32, CFunct3, Field, ExpandI, ExpandR, EncodeI, EncodeS, Rs2Sp;
    SameSelectors(w);
    match CFunct3(w)
    case 0 => AlikeSlli(w, r, pc);
    case 2 => AlikeStackLoads(w, r, pc);
    case 3 => AlikeStackLoads(w, r, pc);
    case 4 => AlikeMoves(w, r, pc);
    case 6 => AlikeSwsp(w, r, pc);
    case 7 => AlikeSdsp(w, r, pc);
    case _ =>
  }

  predicate EvenTarget(t: bv64) { t & 1 == 0 }

  lemma ClearedIsEven(t: bv64)
    ensures Even(t) == t <==> EvenTarget(t)
  {}

  /** Every 16-bit integer instruction does what its fields give with length 2, up to Canonical; for
      c.jr and c.jalr exactly when the target is even. c.ebreak is the exception. */
  lemma SameAsFormed(w: bv64, r: IntRegs, pc: bv64)
    requires r[0] == 0 && Formed(w).Some? && Formed(w).value != EBREAK
    ensures Effect16(w, r, pc).Some? && Effect32(Formed(w).value, r, pc, 2).Some?
    ensures var e, f := Effect16(w, r, pc).value, Effect32(Formed(w).value, r, pc, 2).value;
            && Canonical(e.act) == Canonical(f.act)
            && (e.pc == f.pc <==> (JumpsThroughRegister(w) ==> EvenTarget(Reg(r, Rd(w)))))
            && (JumpsThroughRegister(w) ==> e.act.Idle? || e.act.Write?)
  {
    hide Quadrant0, Quadrant1, Quadrant2, Effect32, CFunct3, Expand0, Expand1, Expand2, Field, Rs2Sp, COpcode,
      Canonical,
      EvenTarget, Reg, Rd, Absolute, Even;
    SameSelectors(w);
    SelectorBounds(w);
    match COpcode(w) {
      case 0 => Alike0(w, r, pc);
      case 1 => Alike1(w, r, pc);
      case _ =>
        if JumpsThroughRegister(w) {
          NotEbreak(w);
          AlmostAlikeJumps(w, r, pc);
          var t := Reg(r, Rd(w));
          ClearedIsEven(t);
          NetAbsolute(t, 2);
          NetAbsolute(Even(t), 2);
        } else {
          Alike2(w, r, pc);
        }
    }
  }

  /** So it does what its 32-bit expansion does, when it has one. */
  lemma SameAsExpansion(w: bv64, r: IntRegs, pc: bv64)
    requires r[0] == 0 && Expand(w).Some? && Expand(w).value != EBREAK
    ensures Effect16(w, r, pc).Some? && Effect32(Expand(w).value, r, pc, 2).Some?
    ensures var e, f := Effect16(w, r, pc).value, Effect32(Expand(w).value, r, pc, 2).value;
            && Canonical(e.act) == Canonical(f.act)
            && (e.pc == f.pc <==> (JumpsThroughRegister(w) ==> EvenTarget(Reg(r, Rd(w)))))
            && (JumpsThroughRegister(w) ==> e.act.Idle? || e.act.Write?)
  {
    hide Effect16, Effect32, Formed, ReservedForm, Canonical, JumpsThroughRegister, EvenTarget, Reg, Rd;
    SameAsFormed(w, r, pc);
  }

  lemma NotEbreak(w: bv64)
    requires CFunct3(w) == 4 && Rs2Sp(w) == 0 && Expand2(w).Some? && Expand2(w).value != EBREAK
    ensures (w >> 12) & 1 == 0 || Rd(w) != 0
  {
    hide Field, CFunct3, Rs2Sp, Rd, RegS, RegD;
    SameSelectors(w);
    SameSource(w);
    SameWideRegs(w);
  }

  // ---- The one expansion that is a system instruction ----------------------------------------------

  /** A word with the opcode of a system instruction or of an atomic one. */
  predicate Privileged(w: bv64)
  {
    Opcode(w) == SYSTEM || Opcode(w) == ATOMIC
  }

  predicate BaseOpcode(op: bv64)
  {
    op < 128 && op != SYSTEM && op != ATOMIC
  }

  lemma BaseOpcodes()
    ensures BaseOpcode(LOAD) && BaseOpcode(OP_IMM) && BaseOpcode(OP_IMM_32) && BaseOpcode(STORE) && BaseOpcode(OP)
    ensures BaseOpcode(LUI) && BaseOpcode(OP_32) && BaseOpcode(BRANCH) && BaseOpcode(JALR) && BaseOpcode(JAL)
  {}

  lemma OpcodeOfI(imm: bv64, rs1: bv64, f3: bv64, rd: bv64, op: bv64)
    requires BaseOpcode(op)
    ensures !Privileged(EncodeI(imm, rs1, f3, rd, op))
  {}

  lemma OpcodeOfS(imm: bv64, rs2: bv64, rs1: bv64, f3: bv64, op: bv64)
    requires BaseOpcode(op)
    ensures !Privileged(EncodeS(imm, rs2, rs1, f3, op)) && !Privileged(EncodeB(imm, rs2, rs1, f3, op))
  {}

  lemma OpcodeOfU(imm: bv64, rd: bv64, op: bv64)
    requires BaseOpcode(op)
    ensures !Privileged(EncodeU(imm, rd, op)) && !Privileged(EncodeJ(imm, rd, op))
  {}

  lemma OpcodeOfR(f7: bv64, rs2: bv64, rs1: bv64, f3: bv64, rd: bv64, op: bv64)
    requires BaseOpcode(op)
    ensures !Privileged(EncodeR(f7, rs2, rs1, f3, rd, op))
  {}

  lemma Unprivileged0(w: bv64)
    ensures Expand0(w).Some? ==> !Privileged(Expand0(w).value)
  {
    hide Privileged, BaseOpcode, EncodeI, EncodeS, Field, ImmCIW, ImmCLW, ImmCLD, RegD3, RegS3;
    BaseOpcodes();
    OpcodeOfI(ImmCIW(w), SP, 0, RegS3(w), 0x13);
    OpcodeOfI(ImmCLW(w), RegD3(w), 2, RegS3(w), 0x03);
    OpcodeOfI(ImmCLD(w), RegD3(w), 3, RegS3(w), 0x03);
    OpcodeOfS(ImmCLW(w), RegS3(w), RegD3(w), 2, 0x23);
    OpcodeOfS(ImmCLD(w), RegS3(w), RegD3(w), 3, 0x23);
  }

  lemma UnprivilegedArithmetic(w: bv64)
    ensures ExpandArithmetic(w).Some? ==> !Privileged(ExpandArithmetic(w).value)
  {
    hide Privileged, BaseOpcode, EncodeI, EncodeR, Field, ShamtC, ShamtA, ImmCI, RegD3, RegS3;
    BaseOpcodes();
    var d, x := RegD3(w), RegS3(w);
    OpcodeOfI(ShamtC(w), d, 5, d, 0x13);
    OpcodeOfI(ShamtA(w), d, 5, d, 0x13);
    OpcodeOfI(ImmCI(w), d, 7, d, 0x13);
    OpcodeOfR(0x20, x, d, 0, d, 0x33);
    OpcodeOfR(0, x, d, 4, d, 0x33);
    OpcodeOfR(0, x, d, 6, d, 0x33);
    OpcodeOfR(0, x, d, 7, d, 0x33);
    OpcodeOfR(0x20, x, d, 0, d, 0x3b);
    OpcodeOfR(0, x, d, 0, d, 0x3b);
  }

  lemma Unprivileged1(w: bv64)
    ensures Expand1(w).Some? ==> !Privileged(Expand1(w).value)
  {
    hide Privileged, BaseOpcode, EncodeI, EncodeU, EncodeJ, EncodeB, Field, ImmCI, ImmCI16, ImmCLUI, ImmCJ, ImmCB, RegD,
      RegD3, ExpandArithmetic;
    BaseOpcodes();
    OpcodeOfI(ImmCI(w), RegD(w), 0, RegD(w), 0x13);
    OpcodeOfI(ImmCI(w), RegD(w), 0, RegD(w), 0x1b);
    OpcodeOfI(ImmCI(w), ZERO, 0, RegD(w), 0x13);
    OpcodeOfI(ImmCI16(w), SP, 0, SP, 0x13);
    OpcodeOfU(ImmCLUI(w), RegD(w), 0x37);
    UnprivilegedArithmetic(w);
    OpcodeOfU(ImmCJ(w), ZERO, 0x6f);
    OpcodeOfS(ImmCB(w), ZERO, RegD3(w), 0, 0x63);
    OpcodeOfS(ImmCB(w), ZERO, RegD3(w), 1, 0x63);
  }

  /** c.ebreak. */
  predicate IsEbreak(w: bv64)
  {
    JumpsThroughRegister(w) && (w >> 12) & 1 != 0 && Rd(w) == 0
  }

  lemma UnprivilegedJump(w: bv64)
    requires Field(w, 15, 13) == 4
    ensures Expand2(w).Some?
    ensures var b := Field(w, 12, 12) != 0 && RegS(w) == 0 && RegD(w) == 0;
            (b <==> Expand2(w).value == EBREAK) && (b <==> Privileged(Expand2(w).value))
  {
    hide Privileged, BaseOpcode, EncodeI, EncodeR, Field, RegD, RegS;
    var d, x := RegD(w), RegS(w);
    BaseOpcodes();
    OpcodeOfI(0, d, 0, ZERO, 0x67);
    OpcodeOfR(0, x, ZERO, 0, d, 0x33);
    OpcodeOfR(0, x, d, 0, d, 0x33);
    OpcodeOfI(0, d, 0, RA, 0x67);
    EbreakPrivileged();
  }

  lemma Unprivileged2(w: bv64)
    requires Expand2(w).Some? && Field(w, 15, 13) != 4
    ensures !Privileged(Expand2(w).value)
  {
    hide Privileged, BaseOpcode, EncodeI, EncodeS, Field, ShamtC, ImmLWSP, ImmLDSP, ImmSWSP, ImmSDSP, RegD, RegS;
    var d, x := RegD(w), RegS(w);
    BaseOpcodes();
    OpcodeOfI(ShamtC(w), d, 1, d, 0x13);
    OpcodeOfI(ImmLWSP(w), SP, 2, d, 0x03);
    OpcodeOfI(ImmLDSP(w), SP, 3, d, 0x03);
    OpcodeOfS(ImmSWSP(w), x, SP, 2, 0x23);
    OpcodeOfS(ImmSDSP(w), x, SP, 3, 0x23);
  }

  lemma EbreakPrivileged()
    ensures Privileged(EBREAK)
    ensures Opcode(EBREAK) == SYSTEM && Funct3(EBREAK) == 0 && Funct7(EBREAK) == 0 && Rs2(EBREAK) == 1
  {}

  lemma OnlyEbreakFormed(w: bv64)
    requires Formed(w).Some?
    ensures Formed(w).value == EBREAK <==> IsEbreak(w)
    ensures Privileged(Formed(w).value) <==> IsEbreak(w)
  {
    hide Privileged, Field, Expand0, Expand1, Expand2, CFunct3, COpcode, Rs2Sp, Rd, RegS, RegD;
    EbreakPrivileged();
    SameSelectors(w);
    SelectorBounds(w);
    SameSource(w);
    SameWideRegs(w);
    match COpcode(w)
    case 0 => Unprivileged0(w);
    case 1 => Unprivileged1(w);
    case _ =>
      if CFunct3(w) == 4 {
        UnprivilegedJump(w);
      } else {
        Unprivileged2(w);
      }
  }

  /** The only expansion that is no base integer instruction is that of c.ebreak, in all words with
      its lower halfword. */
  lemma OnlyEbreak(w: bv64)
    requires Expand(w).Some?
    ensures Expand(w).value == EBREAK <==> IsEbreak(w)
    ensures Privileged(Expand(w).value) <==> IsEbreak(w)
  {
    hide Privileged, Formed, ReservedForm, IsEbreak;
    OnlyEbreakFormed(w);
  }

  /** c.ebreak is dispatched to c.jalr: it jumps to address 0 and links instead of trapping. */
  lemma EbreakJumps(w: bv64, r: IntRegs, pc: bv64)
    requires r[0] == 0 && Expand(w) == Some(EBREAK)
    ensures Effect16(w, r, pc) == Some(Effect(Absolute(0, 2), Write(RA, Add(pc, 2))))
  {
    hide Add, Absolute, Expand, COpcode, CFunct3, Rs2Sp, Rd, Reg;
    OnlyEbreak(w);
    ReadZero(r);
  }

  lemma Unexpanded0(w: bv64, r: IntRegs, pc: bv64)
    requires Expand0(w).None?
    ensures Quadrant0(w, r, pc) == if CFunct3(w) == 4 then Some(Effect(pc, Illegal(w))) else None
    ensures CFunct3(w) == 1 || CFunct3(w) == 4 || CFunct3(w) == 5
  {
    hide CFunct3, Field, ExpandI, EncodeI, EncodeS;
    SameSelectors(w);
    SelectorBounds(w);
  }

  lemma Unexpanded1(w: bv64, r: IntRegs, pc: bv64)
    requires Expand1(w).None?
    ensures Quadrant1(w, r, pc) == Effect(pc, Illegal(w))
  {
    hide CFunct3, CFunct2, Field, ExpandI, ExpandR, EncodeI, EncodeU, EncodeJ, EncodeB, EncodeR;
    SameSelectors(w);
    SelectorBounds(w);
  }

  lemma Unexpanded2(w: bv64, r: IntRegs, pc: bv64)
    requires Expand2(w).None?
    ensures Quadrant2(w, r, pc) == None && (CFunct3(w) == 1 || CFunct3(w) == 5)
  {
    hide CFunct3, Field, ExpandI, ExpandR, EncodeI, EncodeS, RegS, RegD;
    SameSelectors(w);
    SelectorBounds(w);
  }

  /** The floating-point loads and stores. */
  predicate FloatForm(w: bv64)
  {
    COpcode(w) != 1 && (CFunct3(w) == 1 || CFunct3(w) == 5)
  }

  lemma Unformed(w: bv64, r: IntRegs, pc: bv64)
    requires Formed(w).None? && COpcode(w) != 3
    ensures Effect16(w, r, pc) == if FloatForm(w) then None else Some(Effect(pc, Illegal(w)))
  {
    hide CFunct3, COpcode, Field, Quadrant0, Quadrant1, Quadrant2, Expand0, Expand1, Expand2;
    SameSelectors(w);
    SelectorBounds(w);
    match COpcode(w) {
      case 0 => Unexpanded0(w, r, pc);
      case 1 => Unexpanded1(w, r, pc);
      case _ => Unexpanded2(w, r, pc);
    }
  }

  lemma ReservedIsFormed(w: bv64)
    requires ReservedForm(w)
    ensures Formed(w).Some? && Formed(w).value != EBREAK && COpcode(w) != 3 && !FloatForm(w)
  {
    hide Field, CFunct3, COpcode, Rs2Sp, Rd, RegS, RegD, ImmCIW, ImmCI16, ImmCLUI, ExpandI, EncodeI, EncodeU;
    SameSelectors(w);
    SelectorBounds(w);
    SameSource(w);
    SameWideRegs(w);
    if Formed(w).Some? {
      OnlyEbreakFormed(w);
    }
  }

  /** The reserved forms do not trap: the emulator does with them what their fields give. */
  lemma ReservedExecutes(w: bv64, r: IntRegs, pc: bv64)
    requires r[0] == 0 && ReservedForm(w)
    ensures Formed(w).Some? && Effect16(w, r, pc).Some? && Effect32(Formed(w).value, r, pc, 2).Some?
    ensures var e, f := Effect16(w, r, pc).value, Effect32(Formed(w).value, r, pc, 2).value;
            Canonical(e.act) == Canonical(f.act) && e.pc == f.pc && !e.act.Raises?
  {
    hide Formed, Effect32, ReservedForm, Canonical, Quadrant0, Quadrant1, Quadrant2, EvenTarget, JumpsThroughRegister,
      Reg, Rd, COpcode;
    ReservedIsFormed(w);
    SameAsFormed(w, r, pc);
    ReservedEven(w, r);
    ReservedQuiet(w, r, pc);
  }

  /** The only jump among them goes through x0. */
  lemma ReservedEven(w: bv64, r: IntRegs)
    requires r[0] == 0 && ReservedForm(w)
    ensures JumpsThroughRegister(w) ==> EvenTarget(Reg(r, Rd(w)))
  {
    hide Field, CFunct3, COpcode, Rs2Sp, Rd, RegS, RegD, ImmCIW, ImmCI16, ImmCLUI, Reg;
    SameSelectors(w);
    SelectorBounds(w);
    SameSource(w);
    SameWideRegs(w);
    ReadZero(r);
  }

  lemma ReservedQuiet(w: bv64, r: IntRegs, pc: bv64)
    requires ReservedForm(w)
    ensures Effect16(w, r, pc).Some? && !Effect16(w, r, pc).value.act.Raises?
  {
    hide Field, CFunct3, COpcode, Rs2Sp, Rd, RegS, RegD, ImmCIW, ImmCI16, ImmCLUI, Reg, Add, Addi4spnImm, Addi16spImm,
      LuiImm, CImm, Sext32, LwspOffset, LdspOffset, Absolute;
    SameSelectors(w);
    SelectorBounds(w);
    SameSource(w);
    SameWideRegs(w);
  }

  /** A word of a reserved form, with halfword 0, that the emulator executes: only the word 0 traps. */
  lemma ReservedExample(r: IntRegs, pc: bv64)
    ensures ReservedForm(0x0001_0000) && Expand(0x0001_0000) == None
    ensures Effect16(0x0001_0000, r, pc) == Some(Effect(pc, Write(8, Add(Reg(r, SP), 0))))
  {
    hide Add, Reg;
  }

  /** A word without an expansion that is no floating-point load or store should trap; it does if and
      only if it is not of a reserved form. */
  lemma Unexpanded(w: bv64, r: IntRegs, pc: bv64)
    requires r[0] == 0 && Expand(w).None? && COpcode(w) != 3
    ensures Effect16(w, r, pc).None? <==> FloatForm(w)
    ensures !FloatForm(w) ==>
              (Effect16(w, r, pc) == Some(Effect(pc, Illegal(w))) <==> !ReservedForm(w))
    ensures !FloatForm(w) ==> (Effect16(w, r, pc).value.act.Raises? <==> !ReservedForm(w))
  {
    hide Formed, Effect16, Effect32, ReservedForm, Canonical, FloatForm, COpcode;
    if ReservedForm(w) {
      ReservedIsFormed(w);
      ReservedExecutes(w, r, pc);
    } else {
      Unformed(w, r, pc);
    }
  }

  // ---- The upper halfword ------------------------------------------------------------------------

  lemma SameFields(w: bv64)
    ensures var h := w & 0xffff;
            && Field(h, 15, 13) == Field(w, 15, 13) && Field(h, 12, 12) == Field(w, 12, 12)
            && Field(h, 11, 10) == Field(w, 11, 10) && Field(h, 6, 5) == Field(w, 6, 5)
            && Field(h, 1, 0) == Field(w, 1, 0)
            && Field(h, 11, 7) == Field(w, 11, 7) && Field(h, 6, 2) == Field(w, 6, 2)
            && Field(h, 9, 7) == Field(w, 9, 7) && Field(h, 4, 2) == Field(w, 4, 2)
  {}

  lemma SameImmediates0(w: bv64)
    ensures var h := w & 0xffff; ImmCIW(h) == ImmCIW(w) && ImmCLW(h) == ImmCLW(w) && ImmCLD(h) == ImmCLD(w)
  {}

  lemma SameImmediates1(w: bv64)
    ensures var h := w & 0xffff; ImmCI(h) == ImmCI(w) && ImmCI16(h) == ImmCI16(w) && ImmCLUI(h) == ImmCLUI(w)
  {}

  lemma SameJumpImmediate(w: bv64)
    ensures ImmCJ(w & 0xffff) == ImmCJ(w)
  {}

  lemma SameBranchImmediate(w: bv64)
    ensures ImmCB(w & 0xffff) == ImmCB(w)
  {}

  lemma SameCounts(w: bv64)
    ensures var h := w & 0xffff; ShamtC(h) == ShamtC(w) && ShamtA(h) == ShamtA(w)
  {}

  lemma SameImmediates2(w: bv64)
    ensures var h := w & 0xffff;
            && ImmLWSP(h) == ImmLWSP(w) && ImmLDSP(h) == ImmLDSP(w)
  {}

  lemma SameImmediates3(w: bv64)
    ensures var h := w & 0xffff; ImmSWSP(h) == ImmSWSP(w) && ImmSDSP(h) == ImmSDSP(w)
  {}

  lemma SameRegisters(w: bv64)
    ensures var h := w & 0xffff;
            RegD(h) == RegD(w) && RegS(h) == RegS(w) && RegD3(h) == RegD3(w) && RegS3(h) == RegS3(w)
  {
    hide Field, Popular;
    SameFields(w);
  }

  lemma SameExpand0(w: bv64)
    ensures Expand0(w & 0xffff) == Expand0(w)
  {
    hide Field, Popular, ExpandI, ExpandR, EncodeI, EncodeU, EncodeJ, EncodeB, EncodeR, EncodeS, RegD, RegS, RegD3,
      RegS3,
      ImmCIW, ImmCLW, ImmCLD;
    SameFields(w);
    SameRegisters(w);
    SameImmediates0(w);
  }

  lemma SameExpandArithmetic(w: bv64)
    ensures ExpandArithmetic(w & 0xffff) == ExpandArithmetic(w)
  {
    hide Field, Popular, ExpandI, ExpandR, EncodeI, EncodeU, EncodeJ, EncodeB, EncodeR, EncodeS, RegD, RegS, RegD3,
      RegS3,
      ImmCI, ShamtC, ShamtA;
    SameFields(w);
    SameRegisters(w);
    SameImmediates1(w);
    SameCounts(w);
  }

  lemma SameExpand1(w: bv64)
    ensures Expand1(w & 0xffff) == Expand1(w)
  {
    hide Field, Popular, ExpandI, ExpandR, EncodeI, EncodeU, EncodeJ, EncodeB, EncodeR, EncodeS, RegD, RegS, RegD3,
      RegS3,
      ImmCI, ImmCI16, ImmCLUI, ImmCJ, ImmCB, ExpandArithmetic;
    SameFields(w);
    SameRegisters(w);
    SameImmediates1(w);
    SameJumpImmediate(w);
    SameBranchImmediate(w);
    SameExpandArithmetic(w);
  }

  lemma SameExpand2(w: bv64)
    ensures Expand2(w & 0xffff) == Expand2(w)
  {
    hide Field, Popular, ExpandI, ExpandR, EncodeI, EncodeU, EncodeJ, EncodeB, EncodeR, EncodeS, RegD, RegS, RegD3,
      RegS3,
      ImmLWSP, ImmLDSP, ImmSWSP, ImmSDSP, ShamtC;
    SameFields(w);
    SameRegisters(w);
    SameImmediates2(w);
    SameImmediates3(w);
    SameCounts(w);
  }

  /** The expansion does not depend on the halfword that was fetched along. */
  lemma UpperHalfIgnored(w: bv64)
    ensures Expand(w & 0xffff) == Expand(w) && ReservedForm(w & 0xffff) == ReservedForm(w)
  {
    hide Field, Expand0, Expand1, Expand2, ReservedForm;
    SameFields(w);
    SameExpand0(w);
    SameExpand1(w);
    SameExpand2(w);
    SameReservedForm(w);
  }

  lemma SameReservedForm(w: bv64)
    ensures ReservedForm(w & 0xffff) == ReservedForm(w)
  {
    hide Field, RegD, RegS, RegD3, RegS3, ImmCIW, ImmCI16, ImmCLUI, ImmCLW, ImmCLD, ImmCI;
    SameFields(w);
    SameRegisters(w);
    SameImmediates0(w);
    SameImmediates1(w);
  }

  // ---- Loads that fault, and pc ------------------------------------------------------------------

  /** A compressed load does not keep rd; no instruction that accesses memory or raises moves pc. */
  predicate Steady(e: Effect, pc: bv64)
  {
    && (e.act.LoadTo? ==> !e.act.keep)
    && (e.pc == pc || e.act.Idle? || e.act.Write?)
  }

  lemma Steady0(w: bv64, r: IntRegs, pc: bv64)
    ensures Quadrant0(w, r, pc).Some? ==> Steady(Quadrant0(w, r, pc).value, pc)
  {
    hide CFunct3, CRd, CRs1, CRs2, Add, Reg, Low32, LwOffset, LdOffset, Addi4spnImm;
  }

  lemma SteadyArithmetic(w: bv64, r: IntRegs, pc: bv64)
    ensures Steady(Effect(pc, Arithmetic(w, r)), pc)
  {
    hide CFunct2, CRs1, CRs2, Reg, Srl, SraBy, And, CImm, CShamt, Sub, Xor, Or, Add, Sext32;
  }

  lemma Steady1(w: bv64, r: IntRegs, pc: bv64)
    ensures Steady(Quadrant1(w, r, pc), pc)
  {
    hide CFunct3, Rd, CRs1, Reg, Add, CImm, Sext32, Addi16spImm, LuiImm, Relative, JImm, BImm, Arithmetic;
    SteadyArithmetic(w, r, pc);
  }

  lemma Steady2(w: bv64, r: IntRegs, pc: bv64)
    ensures Quadrant2(w, r, pc).Some? ==> Steady(Quadrant2(w, r, pc).value, pc)
  {
    hide CFunct3, Rd, Rs2Sp, Reg, Add, Sll, CShamt, Low32, LwspOffset, LdspOffset, SwspOffset, SdspOffset, Absolute;
  }

  lemma Steady16(w: bv64, r: IntRegs, pc: bv64)
    ensures Effect16(w, r, pc).Some? ==> Steady(Effect16(w, r, pc).value, pc)
  {
    hide COpcode, Quadrant0, Quadrant1, Quadrant2;
    Steady0(w, r, pc);
    Steady1(w, r, pc);
    Steady2(w, r, pc);
  }
}
