/** The 16-bit instructions as the ISA defines them: each is the expansion of a 32-bit
    instruction (chapter 16 of the Unprivileged ISA), here for the integer instructions. */
module Expansion {
  import opened Bits
  import opened PageTable
  import opened Decoder

  // ---- The 32-bit formats ---------------------------------------------------------------------

  function EncodeI(imm: bv64, rs1: bv64, f3: bv64, rd: bv64, op: bv64): bv64
  {
    ((imm & 0xfff) << 20) | (rs1 << 15) | (f3 << 12) | (rd << 7) | op
  }

  function EncodeS(imm: bv64, rs2: bv64, rs1: bv64, f3: bv64, op: bv64): bv64
  {
    ((imm & 0xfe0) << 20) | (rs2 << 20) | (rs1 << 15) | (f3 << 12) | ((imm & 0x1f) << 7) | op
  }

  function EncodeB(imm: bv64, rs2: bv64, rs1: bv64, f3: bv64, op: bv64): bv64
  {
    ((imm & 0x1000) << 19) | ((imm & 0x7e0) << 20) | (rs2 << 20) | (rs1 << 15) | (f3 << 12)
    | ((imm & 0x1e) << 7) | ((imm & 0x800) >> 4) | op
  }

  function EncodeU(imm: bv64, rd: bv64, op: bv64): bv64
  {
    (imm & 0xffff_f000) | (rd << 7) | op
  }

  function EncodeJ(imm: bv64, rd: bv64, op: bv64): bv64
  {
    ((imm & 0x10_0000) << 11) | ((imm & 0x7fe) << 20) | ((imm & 0x800) << 9) | (imm & 0xf_f000) | (rd << 7) | op
  }

  function EncodeR(f7: bv64, rs2: bv64, rs1: bv64, f3: bv64, rd: bv64, op: bv64): bv64
  {
    (f7 << 25) | (rs2 << 20) | (rs1 << 15) | (f3 << 12) | (rd << 7) | op
  }

  /** Two's complement in `n` bits. */
  function Sext(v: bv64, n: bv64): bv64
    requires 0 < n < 64
  {
    if v & (1 << (n - 1)) != 0 then v | !((1 << n) - 1) else v
  }

  predicate IsReg(v: bv64) { v < 32 }

  // ---- The decoder inverts the formats ----------------------------------------------------------

  lemma DecodeI(imm: bv64, rs1: bv64, f3: bv64, rd: bv64, op: bv64)
    requires IsReg(rs1) && f3 < 8 && IsReg(rd) && op < 128
    ensures var w := EncodeI(imm, rs1, f3, rd, op);
            && Opcode(w) == op && Rd(w) == rd && Funct3(w) == f3 && Rs1(w) == rs1
            && ImmI(w) == Sext(imm & 0xfff, 12)
  {
    hide High, Sext;
    HighI(imm);
  }

  lemma HighI(imm: bv64)
    ensures High((imm & 0xfff) << 20, 20) == Sext(imm & 0xfff, 12)
  {
    hide High, Sext;
    if imm & 0x800 == 0 {
      PositiveI(imm);
    } else {
      NegativeI(imm);
    }
  }

  lemma PositiveI(imm: bv64)
    requires imm & 0x800 == 0
    ensures High((imm & 0xfff) << 20, 20) == imm & 0x7ff && Sext(imm & 0xfff, 12) == imm & 0x7ff
  {}

  lemma NegativeI(imm: bv64)
    requires imm & 0x800 != 0
    ensures High((imm & 0xfff) << 20, 20) == (imm & 0x7ff) | 0xffff_ffff_ffff_f800
    ensures Sext(imm & 0xfff, 12) == (imm & 0x7ff) | 0xffff_ffff_ffff_f800
  {}

  lemma DecodeShift(imm: bv64, rs1: bv64, f3: bv64, rd: bv64, op: bv64)
    requires imm < 0x800 && IsReg(rs1) && f3 < 8 && IsReg(rd) && op < 128
    ensures var w := EncodeI(imm, rs1, f3, rd, op);
            Shamt(w) == imm & 0x3f && Funct7(w) >> 1 == imm >> 6
  {
    hide ImmI, EncodeI, Sext, Funct7, And;
    DecodeI(imm, rs1, f3, rd, op);
    CountOf(imm);
    CountBits(imm, rs1, f3, rd, op);
  }

  lemma CountOf(imm: bv64)
    requires imm < 0x800
    ensures And(Sext(imm & 0xfff, 12), 0x3f) == imm & 0x3f
  {}

  lemma CountBits(imm: bv64, rs1: bv64, f3: bv64, rd: bv64, op: bv64)
    requires imm < 0x800 && IsReg(rs1) && f3 < 8 && IsReg(rd) && op < 128
    ensures Funct7(EncodeI(imm, rs1, f3, rd, op)) >> 1 == imm >> 6
  {}

  lemma DecodeS(imm: bv64, rs2: bv64, rs1: bv64, f3: bv64, op: bv64)
    requires IsReg(rs2) && IsReg(rs1) && f3 < 8 && op < 128
    ensures var w := EncodeS(imm, rs2, rs1, f3, op);
            && Opcode(w) == op && Funct3(w) == f3 && Rs1(w) == rs1 && Rs2(w) == rs2
            && ImmS(w) == Sext(imm & 0xfff, 12)
  {
    hide ImmS;
    PartsS(imm, rs2, rs1, f3, op);
    HighS(imm);
  }

  lemma PartsS(imm: bv64, rs2: bv64, rs1: bv64, f3: bv64, op: bv64)
    requires IsReg(rs2) && IsReg(rs1) && f3 < 8 && op < 128
    ensures ImmS(EncodeS(imm, rs2, rs1, f3, op)) == Or(High((imm & 0xfe0) << 20, 20), imm & 0x1f)
  {
    hide High, Or;
  }

  lemma HighS(imm: bv64)
    ensures Or(High((imm & 0xfe0) << 20, 20), imm & 0x1f) == Sext(imm & 0xfff, 12)
  {
    hide High, Sext, Or;
    if imm & 0x800 == 0 {
      PositiveI(imm);
      PositiveS(imm);
    } else {
      NegativeI(imm);
      NegativeS(imm);
    }
  }

  lemma PositiveS(imm: bv64)
    requires imm & 0x800 == 0
    ensures Or(High((imm & 0xfe0) << 20, 20), imm & 0x1f) == imm & 0x7ff
  {}

  lemma NegativeS(imm: bv64)
    requires imm & 0x800 != 0
    ensures Or(High((imm & 0xfe0) << 20, 20), imm & 0x1f) == (imm & 0x7ff) | 0xffff_ffff_ffff_f800
  {}

  lemma DecodeB(imm: bv64, rs2: bv64, rs1: bv64, f3: bv64, op: bv64)
    requires IsReg(rs2) && IsReg(rs1) && f3 < 8 && op < 128
    ensures var w := EncodeB(imm, rs2, rs1, f3, op);
            && Opcode(w) == op && Funct3(w) == f3 && Rs1(w) == rs1 && Rs2(w) == rs2
            && ImmB(w) == Sext(imm & 0x1ffe, 13)
  {
    hide ImmB;
    PartsB(imm, rs2, rs1, f3, op);
    HighB(imm);
  }

  lemma PartsB(imm: bv64, rs2: bv64, rs1: bv64, f3: bv64, op: bv64)
    requires IsReg(rs2) && IsReg(rs1) && f3 < 8 && op < 128
    ensures ImmB(EncodeB(imm, rs2, rs1, f3, op)) ==
            Or(Or(Or(High((imm & 0x1000) << 19, 19), imm & 0x800), imm & 0x7e0), imm & 0x1e)
  {
    hide High, Or;
  }

  lemma HighB(imm: bv64)
    ensures Or(Or(Or(High((imm & 0x1000) << 19, 19), imm & 0x800), imm & 0x7e0), imm & 0x1e) == Sext(imm & 0x1ffe, 13)
  {
    hide High, Sext, Or;
    if imm & 0x1000 == 0 {
      PositiveB(imm);
    } else {
      NegativeB(imm);
    }
  }

  lemma PositiveB(imm: bv64)
    requires imm & 0x1000 == 0
    ensures Or(Or(Or(High((imm & 0x1000) << 19, 19), imm & 0x800), imm & 0x7e0), imm & 0x1e) == imm & 0xffe
    ensures Sext(imm & 0x1ffe, 13) == imm & 0xffe
  {}

  lemma NegativeB(imm: bv64)
    requires imm & 0x1000 != 0
    ensures Or(Or(Or(High((imm & 0x1000) << 19, 19), imm & 0x800), imm & 0x7e0), imm & 0x1e) ==
            (imm & 0xffe) | 0xffff_ffff_ffff_f000
    ensures Sext(imm & 0x1ffe, 13) == (imm & 0xffe) | 0xffff_ffff_ffff_f000
  {}

  lemma DecodeU(imm: bv64, rd: bv64, op: bv64)
    requires IsReg(rd) && op < 128
    ensures var w := EncodeU(imm, rd, op);
            Opcode(w) == op && Rd(w) == rd && ImmU(w) == Sext(imm & 0xffff_f000, 32)
  {
    hide Sext32, Sext;
    HighU(imm);
  }

  lemma HighU(imm: bv64)
    ensures Sext32(imm & 0xffff_f000) == Sext(imm & 0xffff_f000, 32)
  {
    hide Sext32, Sext;
    if imm & 0x8000_0000 == 0 {
      PositiveU(imm);
    } else {
      NegativeU(imm);
    }
  }

  lemma PositiveU(imm: bv64)
    requires imm & 0x8000_0000 == 0
    ensures Sext32(imm & 0xffff_f000) == imm & 0x7fff_f000 && Sext(imm & 0xffff_f000, 32) == imm & 0x7fff_f000
  {}

  lemma NegativeU(imm: bv64)
    requires imm & 0x8000_0000 != 0
    ensures Sext32(imm & 0xffff_f000) == (imm & 0xffff_f000) | 0xffff_ffff_0000_0000
    ensures Sext(imm & 0xffff_f000, 32) == (imm & 0xffff_f000) | 0xffff_ffff_0000_0000
  {}

  lemma DecodeJ(imm: bv64, rd: bv64, op: bv64)
    requires IsReg(rd) && op < 128
    ensures var w := EncodeJ(imm, rd, op);
            Opcode(w) == op && Rd(w) == rd && ImmJ(w) == Sext(imm & 0x1f_fffe, 21)
  {
    hide ImmJ;
    PartsJ(imm, rd, op);
    HighJ(imm);
  }

  lemma PartsJ(imm: bv64, rd: bv64, op: bv64)
    requires IsReg(rd) && op < 128
    ensures ImmJ(EncodeJ(imm, rd, op)) ==
            Or(Or(Or(High((imm & 0x10_0000) << 11, 11), imm & 0xf_f000), imm & 0x800), imm & 0x7fe)
  {
    hide High, Or;
  }

  lemma HighJ(imm: bv64)
    ensures Or(Or(Or(High((imm & 0x10_0000) << 11, 11), imm & 0xf_f000), imm & 0x800), imm & 0x7fe) ==
            Sext(imm & 0x1f_fffe, 21)
  {
    hide High, Sext, Or;
    if imm & 0x10_0000 == 0 {
      PositiveJ(imm);
    } else {
      NegativeJ(imm);
    }
  }

  lemma PositiveJ(imm: bv64)
    requires imm & 0x10_0000 == 0
    ensures Or(Or(Or(High((imm & 0x10_0000) << 11, 11), imm & 0xf_f000), imm & 0x800), imm & 0x7fe) == imm & 0xf_fffe
    ensures Sext(imm & 0x1f_fffe, 21) == imm & 0xf_fffe
  {}

  lemma NegativeJ(imm: bv64)
    requires imm & 0x10_0000 != 0
    ensures Or(Or(Or(High((imm & 0x10_0000) << 11, 11), imm & 0xf_f000), imm & 0x800), imm & 0x7fe) ==
            (imm & 0xf_fffe) | 0xffff_ffff_fff0_0000
    ensures Sext(imm & 0x1f_fffe, 21) == (imm & 0xf_fffe) | 0xffff_ffff_fff0_0000
  {}

  lemma DecodeR(f7: bv64, rs2: bv64, rs1: bv64, f3: bv64, rd: bv64, op: bv64)
    requires f7 < 128 && IsReg(rs2) && IsReg(rs1) && f3 < 8 && IsReg(rd) && op < 128
    ensures var w := EncodeR(f7, rs2, rs1, f3, rd, op);
            Opcode(w) == op && Rd(w) == rd && Funct3(w) == f3 && Rs1(w) == rs1 && Rs2(w) == rs2 && Funct7(w) == f7
  {}

  // ---- The 16-bit formats -----------------------------------------------------------------------

  /** Bits `hi` down to `lo` of a halfword. */
  function Field(w: bv64, hi: bv64, lo: bv64): bv64
    requires lo <= hi < 16
  {
    (w >> lo) & ((1 << (hi - lo + 1)) - 1)
  }

  function ImmCI(w: bv64): bv64 { Sext((Field(w, 12, 12) << 5) | Field(w, 6, 2), 6) }

  function ImmCIW(w: bv64): bv64
  {
    (Field(w, 12, 11) << 4) | (Field(w, 10, 7) << 6) | (Field(w, 6, 6) << 2) | (Field(w, 5, 5) << 3)
  }

  function ImmCLW(w: bv64): bv64 { (Field(w, 12, 10) << 3) | (Field(w, 6, 6) << 2) | (Field(w, 5, 5) << 6) }

  function ImmCLD(w: bv64): bv64 { (Field(w, 12, 10) << 3) | (Field(w, 6, 5) << 6) }

  function ImmCI16(w: bv64): bv64
  {
    Sext((Field(w, 12, 12) << 9) | (Field(w, 6, 6) << 4) | (Field(w, 5, 5) << 6) | (Field(w, 4, 3) << 7)
         | (Field(w, 2, 2) << 5), 10)
  }

  function ImmCLUI(w: bv64): bv64 { Sext((Field(w, 12, 12) << 17) | (Field(w, 6, 2) << 12), 18) }

  function ImmCJ(w: bv64): bv64
  {
    Sext((Field(w, 12, 12) << 11) | (Field(w, 11, 11) << 4) | (Field(w, 10, 9) << 8) | (Field(w, 8, 8) << 10)
         | (Field(w, 7, 7) << 6) | (Field(w, 6, 6) << 7) | (Field(w, 5, 3) << 1) | (Field(w, 2, 2) << 5), 12)
  }

  function ImmCB(w: bv64): bv64
  {
    Sext((Field(w, 12, 12) << 8) | (Field(w, 11, 10) << 3) | (Field(w, 6, 5) << 6) | (Field(w, 4, 3) << 1)
         | (Field(w, 2, 2) << 5), 9)
  }

  function ImmLWSP(w: bv64): bv64 { (Field(w, 12, 12) << 5) | (Field(w, 6, 4) << 2) | (Field(w, 3, 2) << 6) }

  function ImmLDSP(w: bv64): bv64 { (Field(w, 12, 12) << 5) | (Field(w, 6, 5) << 3) | (Field(w, 4, 2) << 6) }

  function ImmSWSP(w: bv64): bv64 { (Field(w, 12, 9) << 2) | (Field(w, 8, 7) << 6) }

  function ImmSDSP(w: bv64): bv64 { (Field(w, 12, 10) << 3) | (Field(w, 9, 7) << 6) }

  function ShamtC(w: bv64): bv64 { (Field(w, 12, 12) << 5) | Field(w, 6, 2) }

  /** The immediate of an arithmetic shift. */
  function ShamtA(w: bv64): bv64 { 0x400 | ShamtC(w) }

  function RegD(w: bv64): bv64 { Field(w, 11, 7) }

  function RegS(w: bv64): bv64 { Field(w, 6, 2) }

  /** The registers x8 to x15. */
  function RegD3(w: bv64): bv64 { Popular(Field(w, 9, 7)) }

  function RegS3(w: bv64): bv64 { Popular(Field(w, 4, 2)) }

  // ---- The expansions -------------------------------------------------------------------------

  const ZERO: bv64 := 0
  const RA: bv64 := 1
  const SP: bv64 := 2

  function ExpandI(imm: bv64, rs1: bv64, f3: bv64, rd: bv64): bv64 { EncodeI(imm, rs1, f3, rd, 0x13) }
  function ExpandR(f7: bv64, rs2: bv64, rs1: bv64, f3: bv64, rd: bv64): bv64 { EncodeR(f7, rs2, rs1, f3, rd, 0x33) }

  /** None for the floating-point load and store, and for the reserved operation. */
  function Expand0(w: bv64): Option<bv64>
  {
    match Field(w, 15, 13)
    case 0 => Some(ExpandI(ImmCIW(w), SP, 0, RegS3(w)))
    case 2 => Some(EncodeI(ImmCLW(w), RegD3(w), 2, RegS3(w), 0x03))
    case 3 => Some(EncodeI(ImmCLD(w), RegD3(w), 3, RegS3(w), 0x03))
    case 6 => Some(EncodeS(ImmCLW(w), RegS3(w), RegD3(w), 2, 0x23))
    case 7 => Some(EncodeS(ImmCLD(w), RegS3(w), RegD3(w), 3, 0x23))
    case _ => None
  }

  function Expand1(w: bv64): Option<bv64>
  {
    match Field(w, 15, 13)
    case 0 => Some(ExpandI(ImmCI(w), RegD(w), 0, RegD(w)))
    case 1 => Some(EncodeI(ImmCI(w), RegD(w), 0, RegD(w), 0x1b))
    case 2 => Some(ExpandI(ImmCI(w), ZERO, 0, RegD(w)))
    case 3 => if RegD(w) == SP then Some(ExpandI(ImmCI16(w), SP, 0, SP)) else Some(EncodeU(ImmCLUI(w), RegD(w), 0x37))
    case 4 => ExpandArithmetic(w)
    case 5 => Some(EncodeJ(ImmCJ(w), ZERO, 0x6f))
    case 6 => Some(EncodeB(ImmCB(w), ZERO, RegD3(w), 0, 0x63))
    case _ => Some(EncodeB(ImmCB(w), ZERO, RegD3(w), 1, 0x63))
  }

  function ExpandArithmetic(w: bv64): Option<bv64>
  {
    match Field(w, 11, 10)
    case 0 => Some(ExpandI(ShamtC(w), RegD3(w), 5, RegD3(w)))
    case 1 => Some(ExpandI(ShamtA(w), RegD3(w), 5, RegD3(w)))
    case 2 => Some(ExpandI(ImmCI(w), RegD3(w), 7, RegD3(w)))
    case _ =>
      if Field(w, 12, 12) == 0 then
        match Field(w, 6, 5)
        case 0 => Some(ExpandR(0x20, RegS3(w), RegD3(w), 0, RegD3(w)))
        case 1 => Some(ExpandR(0, RegS3(w), RegD3(w), 4, RegD3(w)))
        case 2 => Some(ExpandR(0, RegS3(w), RegD3(w), 6, RegD3(w)))
        case _ => Some(ExpandR(0, RegS3(w), RegD3(w), 7, RegD3(w)))
      else
        match Field(w, 6, 5)
        case 0 => Some(EncodeR(0x20, RegS3(w), RegD3(w), 0, RegD3(w), 0x3b))
        case 1 => Some(EncodeR(0, RegS3(w), RegD3(w), 0, RegD3(w), 0x3b))
        case _ => None
  }

  const EBREAK: bv64 := 0x0010_0073

  function Expand2(w: bv64): Option<bv64>
  {
    match Field(w, 15, 13)
    case 0 => Some(ExpandI(ShamtC(w), RegD(w), 1, RegD(w)))
    case 2 => Some(EncodeI(ImmLWSP(w), SP, 2, RegD(w), 0x03))
    case 3 => Some(EncodeI(ImmLDSP(w), SP, 3, RegD(w), 0x03))
    case 4 =>
      if Field(w, 12, 12) == 0 then
        if RegS(w) == 0 then Some(EncodeI(0, RegD(w), 0, ZERO, 0x67))
        else Some(ExpandR(0, RegS(w), ZERO, 0, RegD(w)))
      else if RegS(w) != 0 then Some(ExpandR(0, RegS(w), RegD(w), 0, RegD(w)))
      else if RegD(w) == 0 then Some(EBREAK)
      else Some(EncodeI(0, RegD(w), 0, RA, 0x67))
    case 6 => Some(EncodeS(ImmSWSP(w), RegS(w), SP, 2, 0x23))
    case 7 => Some(EncodeS(ImmSDSP(w), RegS(w), SP, 3, 0x23))
    case _ => None
  }

  /** The 32-bit instruction that the fields of a 16-bit one give, also where the ISA reserves the
      combination of fields. */
  function Formed(w: bv64): Option<bv64>
  {
    match Field(w, 1, 0)
    case 0 => Expand0(w)
    case 1 => Expand1(w)
    case 2 => Expand2(w)
    case _ => None
  }

  /** The combinations of fields that the ISA reserves: c.addi4spn, c.addi16sp and c.lui without an
      immediate (the halfword 0 is among them), c.addiw, c.lwsp and c.ldsp without a destination, and
      c.jr through x0. */
  predicate ReservedForm(w: bv64)
  {
    var f3 := Field(w, 15, 13);
    match Field(w, 1, 0)
    case 0 => f3 == 0 && ImmCIW(w) == 0
    case 1 => (f3 == 1 && RegD(w) == 0) || (f3 == 3 && (if RegD(w) == SP then ImmCI16(w) else ImmCLUI(w)) == 0)
    case 2 =>
      || ((f3 == 2 || f3 == 3) && RegD(w) == 0)
      || (f3 == 4 && Field(w, 12, 12) == 0 && RegS(w) == 0 && RegD(w) == 0)
    case _ => false
  }

  /** The 32-bit instruction that a 16-bit one stands for; the reserved forms stand for none. */
  function Expand(w: bv64): Option<bv64>
  {
    if ReservedForm(w) then None else Formed(w)
  }
}
