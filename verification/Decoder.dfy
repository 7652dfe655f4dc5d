/** Fields and immediates of an instruction word (decoder.cpp). Words are 32 bits wide; every
    extractor masks, so bits above them do not matter. */
module Decoder {
  import opened Bits

  function Sext8(v: bv64): bv64 { if v & 0x80 != 0 then v | 0xffff_ffff_ffff_ff00 else v & 0xff }

  function Sext16(v: bv64): bv64 { if v & 0x8000 != 0 then v | 0xffff_ffff_ffff_0000 else v & 0xffff }

  function Sext32(v: bv64): bv64
  {
    if v & 0x8000_0000 != 0 then Or(v, 0xffff_ffff_0000_0000) else And(v, 0xffff_ffff)
  }

  function Opcode(w: bv64): bv64 { w & 0x7f }
  function Rd(w: bv64): bv64 { (w >> 7) & 0x1f }
  function Rs1(w: bv64): bv64 { (w >> 15) & 0x1f }
  function Rs2(w: bv64): bv64 { (w >> 20) & 0x1f }
  function Funct3(w: bv64): bv64 { (w >> 12) & 7 }
  function Funct5(w: bv64): bv64 { (Funct7(w) & 0x7c) >> 2 }
  function Funct7(w: bv64): bv64 { (w >> 25) & 0x7f }
  function Shamt(w: bv64): bv64 { And(ImmI(w), 0x3f) }
  function CsrNumber(w: bv64): bv64 { (w & 0xfff0_0000) >> 20 }

  /** The arithmetic right shift by 20, 19 and 11 of a sign-extended word. */
  function ImmI(w: bv64): bv64 { High(w & 0xfff0_0000, 20) }

  function ImmS(w: bv64): bv64 { Or(High(w & 0xfe00_0000, 20), (w >> 7) & 0x1f) }

  function ImmB(w: bv64): bv64
  {
    Or(Or(Or(High(w & 0x8000_0000, 19), (w & 0x80) << 4), (w >> 20) & 0x7e0), (w >> 7) & 0x1e)
  }

  function ImmJ(w: bv64): bv64
  {
    Or(Or(Or(High(w & 0x8000_0000, 11), w & 0xff000), (w >> 9) & 0x800), (w >> 20) & 0x7fe)
  }

  function ImmU(w: bv64): bv64 { Sext32(w & 0xffff_f000) }

  /** Sign extension from 32 bits, then an arithmetic shift right. */
  function High(v: bv64, n: bv64): bv64
    requires n <= 32
  {
    Sra(Sext32(v), n)
  }

  function Sra(v: bv64, n: bv64): bv64
    requires n < 64
  {
    if v & 0x8000_0000_0000_0000 != 0 then Not(Shr(Not(v), n)) else Shr(v, n)
  }

  // ---- Compressed words ------------------------------------------------------------------

  function COpcode(w: bv64): bv64 { w & 3 }
  function CFunct3(w: bv64): bv64 { (w >> 13) & 7 }
  function CFunct2(w: bv64): bv64 { (w >> 10) & 3 }

  /** The three-bit register fields name x8 to x15. */
  function Popular(i: bv64): bv64 { i + 8 }
  function CRd(w: bv64): bv64 { Popular((w >> 2) & 7) }
  function CRs1(w: bv64): bv64 { Popular((w >> 7) & 7) }
  function CRs2(w: bv64): bv64 { Popular((w >> 2) & 7) }
  function CShamt(w: bv64): bv64 { ((w >> 7) & 0x20) | ((w >> 2) & 0x1f) }

  function InsnSize(w: bv64): bv64 { if COpcode(w) != 3 then 2 else 4 }
}
