/** What one 32-bit integer instruction does (loadinsn.cpp, stypeinsn.cpp, itypeinsn.cpp,
    i64insn.cpp, rtypeinsn.cpp, r64insn.cpp, btypeinsn.cpp, otherinsn.cpp). */
module Isa {
  import opened Bits
  import opened PageTable
  import opened Hart
  import opened Decoder
  import opened MulDiv

  /** The number of bytes an instruction loads or stores. */
  type Width = n: nat | n == 1 || n == 2 || n == 4 || n == 8 witness 1

  /** What a handler does besides moving pc. `keep` tells that a load that faults leaves rd. */
  datatype Action =
    | Idle
    | Write(rd: bv64, value: bv64)
    | LoadTo(rd: bv64, address: bv64, bytes: Width, signed: bool, keep: bool)
    | StoreTo(address: bv64, bytes: Width, value: bv64)
    | Raises(e: Exception, data: bv64)

  /** A handler's pc and its action; the step adds the length of the instruction to pc after it. */
  datatype Effect = Effect(pc: bv64, act: Action)

  function Index(i: bv64): (k: nat)
    ensures k < REGS
  {
    (i & 0x1f) as nat
  }

  function Reg(r: IntRegs, i: bv64): bv64
  {
    r[Index(i)]
  }

  // ---- Arithmetic ----------------------------------------------------------------------------

  function Add(a: bv64, b: bv64): bv64 { a + b }
  function Sub(a: bv64, b: bv64): bv64 { a - b }
  function Xor(a: bv64, b: bv64): bv64 { a ^ b }

  /** Shifts use the low six bits of the count, word shifts the low five. */
  function Sll(a: bv64, n: bv64): bv64 { a << (n & 0x3f) }
  function Srl(a: bv64, n: bv64): bv64 { a >> (n & 0x3f) }
  function SraBy(a: bv64, n: bv64): bv64 { Sra(a, n & 0x3f) }
  function SllW(a: bv64, n: bv64): bv64 { Sext32(a << (n & 0x1f)) }
  function SrlW(a: bv64, n: bv64): bv64 { Sext32((a & 0xffff_ffff) >> (n & 0x1f)) }
  function SraW(a: bv64, n: bv64): bv64 { Sra(Sext32(a), n & 0x1f) }

  predicate Below(a: bv64, b: bv64) { a < b }
  function Flip(a: bv64): bv64 { a ^ 0x8000_0000_0000_0000 }
  predicate BelowSigned(a: bv64, b: bv64) { Below(Flip(a), Flip(b)) }
  function Truth(b: bool): bv64 { if b then 1 else 0 }

  /** `pc += imm - len` */
  function Relative(pc: bv64, imm: bv64, len: bv64): bv64 { pc + (imm - len) }

  function Absolute(target: bv64, len: bv64): bv64 { target - len }

  // ---- The opcodes ------------------------------------------------------------------------------

  function Illegal(w: bv64): Action { Raises(IllegalInstruction, w) }

  function LoadAction(w: bv64, r: IntRegs): Action
  {
    var a := Add(Reg(r, Rs1(w)), ImmI(w));
    match Funct3(w)
    case 0 => LoadTo(Rd(w), a, 1, true, true)
    case 1 => LoadTo(Rd(w), a, 2, true, true)
    case 2 => LoadTo(Rd(w), a, 4, true, true)
    case 3 => LoadTo(Rd(w), a, 8, true, true)
    case 4 => LoadTo(Rd(w), a, 1, false, true)
    case 5 => LoadTo(Rd(w), a, 2, false, true)
    case 6 => LoadTo(Rd(w), a, 4, false, true)
    case _ => Illegal(w)
  }

  function StoreAction(w: bv64, r: IntRegs): Action
  {
    var a, v := Add(Reg(r, Rs1(w)), ImmS(w)), Reg(r, Rs2(w));
    match Funct3(w)
    case 0 => StoreTo(a, 1, v)
    case 1 => StoreTo(a, 2, v)
    case 2 => StoreTo(a, 4, v)
    case 3 => StoreTo(a, 8, v)
    case _ => Illegal(w)
  }

  /** SRAI shifts by the six-bit count as the ISA defines. */
  function ImmAction(w: bv64, r: IntRegs): Action
  {
    var a, imm := Reg(r, Rs1(w)), ImmI(w);
    match Funct3(w)
    case 0 => Write(Rd(w), Add(a, imm))
    case 1 => Write(Rd(w), Sll(a, Shamt(w)))
    case 2 => Write(Rd(w), Truth(BelowSigned(a, imm)))
    case 3 => Write(Rd(w), Truth(Below(a, imm)))
    case 4 => Write(Rd(w), Xor(a, imm))
    case 5 =>
      if Funct7(w) >> 1 == 0 then Write(Rd(w), Srl(a, Shamt(w)))
      else if Funct7(w) >> 1 == 0x10 then Write(Rd(w), SraBy(a, Shamt(w)))
      else Illegal(w)
    case 6 => Write(Rd(w), Or(a, imm))
    case _ => Write(Rd(w), And(a, imm))
  }

  function ImmWAction(w: bv64, r: IntRegs): Action
  {
    var a := Reg(r, Rs1(w));
    match Funct3(w)
    case 0 => Write(Rd(w), Sext32(Add(a, ImmI(w))))
    case 1 => Write(Rd(w), Sext32(Sll(a, Shamt(w))))
    case 5 =>
      if Funct7(w) == 0 then Write(Rd(w), SrlW(a, Shamt(w)))
      else if Funct7(w) == 0x20 then Write(Rd(w), SraW(a, Shamt(w)))
      else Illegal(w)
    case _ => Illegal(w)
  }

  /** sra shifts the low half, sign-extended; a count of 32 or more is undefined. */
  function SraLow(a: bv64, n: bv64): Option<bv64>
  {
    if n < 32 then Some(Sra(Sext32(a), n)) else None
  }

  function WriteSome(rd: bv64, v: Option<bv64>): Option<Action>
  {
    match v
    case Some(x) => Some(Write(rd, x))
    case None => None
  }

  /** Opcode R; None for what is undefined: a count of sra, and the division whose quotient
      overflows. */
  function RegAction(w: bv64, r: IntRegs): Option<Action>
  {
    var a, b := Reg(r, Rs1(w)), Reg(r, Rs2(w));
    if Funct7(w) == 0 then Some(Write(Rd(w), BaseOp(Funct3(w), a, b)))
    else if Funct7(w) == 1 then
      WriteSome(Rd(w), MulDivOp(Funct3(w), a, b))
    else if Funct7(w) == 0x20 && Funct3(w) == 0 then Some(Write(Rd(w), Sub(a, b)))
    else if Funct7(w) == 0x20 && Funct3(w) == 5 then WriteSome(Rd(w), SraLow(a, b))
    else Some(Illegal(w))
  }

  function BaseOp(f: bv64, a: bv64, b: bv64): bv64
  {
    match f
    case 0 => Add(a, b)
    case 1 => Sll(a, b)
    case 2 => Truth(BelowSigned(a, b))
    case 3 => Truth(Below(a, b))
    case 4 => Xor(a, b)
    case 5 => Srl(a, b)
    case 6 => Or(a, b)
    case _ => And(a, b)
  }

  function MulDivOp(f: bv64, a: bv64, b: bv64): Option<bv64>
  {
    match f
    case 0 => Some(Mul(a, b))
    case 1 => Some(MulH(a, b))
    case 2 => Some(MulHSU(a, b))
    case 3 => Some(MulHU(a, b))
    case 4 => Div(a, b)
    case 5 => Some(DivU(a, b))
    case 6 => Some(Rem(a, b))
    case _ => Some(RemU(a, b))
  }

  /** Opcode R64; None for the remainder of a division by zero, which is undefined. */
  function RegWAction(w: bv64, r: IntRegs): Option<Action>
  {
    var a, b := Reg(r, Rs1(w)), Reg(r, Rs2(w));
    match Funct3(w)
    case 0 =>
      if Funct7(w) == 0 then Some(Write(Rd(w), Sext32(Add(a, b))))
      else if Funct7(w) == 1 then Some(Write(Rd(w), MulW(a, b)))
      else if Funct7(w) == 0x20 then Some(Write(Rd(w), Sext32(Sub(a, b))))
      else Some(Illegal(w))
    case 1 => Some(Write(Rd(w), SllW(a, b)))
    case 4 => Some(Write(Rd(w), DivW(a, b)))
    case 5 =>
      if Funct7(w) == 0 then Some(Write(Rd(w), SrlW(a, b)))
      else if Funct7(w) == 1 then Some(Write(Rd(w), DivUW(a, b)))
      else if Funct7(w) == 0x20 then Some(Write(Rd(w), SraW(a, b)))
      else Some(Illegal(w))
    case 6 => WriteSome(Rd(w), RemW(a, b))
    case 7 => WriteSome(Rd(w), RemUW(a, b))
    case _ => Some(Illegal(w))
  }

  predicate BranchTaken(f: bv64, a: bv64, b: bv64)
  {
    match f
    case 0 => a == b
    case 1 => a != b
    case 4 => BelowSigned(a, b)
    case 5 => !BelowSigned(a, b)
    case 6 => Below(a, b)
    case _ => !Below(a, b)
  }

  function BranchEffect(w: bv64, r: IntRegs, pc: bv64, len: bv64): Effect
  {
    if Funct3(w) == 2 || Funct3(w) == 3 then Effect(pc, Illegal(w))
    else Branch(BranchTaken(Funct3(w), Reg(r, Rs1(w)), Reg(r, Rs2(w))), w, pc, len)
  }

  predicate Branches(w: bv64, r: IntRegs)
  {
    Funct3(w) != 2 && Funct3(w) != 3 && BranchTaken(Funct3(w), Reg(r, Rs1(w)), Reg(r, Rs2(w)))
  }

  function Branch(taken: bool, w: bv64, pc: bv64, len: bv64): Effect
  {
    Effect(if taken then Relative(pc, ImmB(w), len) else pc, Idle)
  }

  const LOAD: bv64 := 0x03
  const FENCE: bv64 := 0x0f
  const OP_IMM: bv64 := 0x13
  const AUIPC: bv64 := 0x17
  const OP_IMM_32: bv64 := 0x1b
  const STORE: bv64 := 0x23
  const ATOMIC: bv64 := 0x2f
  const OP: bv64 := 0x33
  const LUI: bv64 := 0x37
  const OP_32: bv64 := 0x3b
  const BRANCH: bv64 := 0x63
  const JALR: bv64 := 0x67
  const JAL: bv64 := 0x6f
  const SYSTEM: bv64 := 0x73

  /** The floating-point opcodes. */
  predicate FloatOpcode(op: bv64)
  {
    op == 0x07 || op == 0x27 || op == 0x43 || op == 0x47 || op == 0x4b || op == 0x4f || op == 0x53
  }

  /** The integer instructions that neither trap by themselves nor touch CSRs. The length is 4
      for instructions in memory; it is a parameter so that the expansion of a compressed
      instruction can be given its length 2. None for what is left out. */
  function Effect32(w: bv64, r: IntRegs, pc: bv64, len: bv64): Option<Effect>
  {
    var op := Opcode(w);
    if op == LOAD then Some(Effect(pc, LoadAction(w, r)))
    else if op == STORE then Some(Effect(pc, StoreAction(w, r)))
    else if op == OP_IMM then Some(Effect(pc, ImmAction(w, r)))
    else if op == OP_IMM_32 then Some(Effect(pc, ImmWAction(w, r)))
    else if op == OP then PlainEffect(pc, RegAction(w, r))
    else if op == OP_32 then PlainEffect(pc, RegWAction(w, r))
    else if op == BRANCH then Some(BranchEffect(w, r, pc, len))
    else if op == LUI then Some(Effect(pc, Write(Rd(w), ImmU(w))))
    else if op == AUIPC then Some(Effect(pc, Write(Rd(w), Add(pc, ImmU(w)))))
    else if op == JAL then Some(Effect(Relative(pc, ImmJ(w), len), Write(Rd(w), Add(pc, len))))
    else if op == JALR then
      var target := Even(Add(Reg(r, Rs1(w)), ImmI(w)));
      Some(Effect(Absolute(target, len), Write(Rd(w), Add(pc, len))))
    else if op == FENCE then Some(Effect(pc, Idle))
    else if FloatOpcode(op) then None
    else Some(Effect(pc, Illegal(w)))
  }

  function PlainEffect(pc: bv64, a: Option<Action>): Option<Effect>
  {
    match a
    case None => None
    case Some(act) => Some(Effect(pc, act))
  }

  // ---- Jumps ---------------------------------------------------------------------------------

  /** Once the step has added the length, a relative jump has gone to pc + imm, modulo 2^64. */
  lemma NetRelative(pc: bv64, imm: bv64, len: bv64)
    ensures Add(Relative(pc, imm, len), len) == Add(pc, imm)
  {
    hide Add;
    RelativeCancels(pc, imm, len);
  }

  lemma RelativeCancels(pc: bv64, imm: bv64, len: bv64)
    ensures Add(pc + (imm - len), len) == Add(pc, imm)
  {}

  /** And an absolute one to its target. */
  lemma NetAbsolute(target: bv64, len: bv64)
    ensures Add(Absolute(target, len), len) == target
  {
    hide Add;
    AbsoluteCancels(target, len);
  }

  lemma AbsoluteCancels(target: bv64, len: bv64)
    ensures Add(target - len, len) == target
  {}

  /** The pc after the step: the branch or jump target of the ISA, or the next instruction. */
  function TargetOf(w: bv64, r: IntRegs, pc: bv64, len: bv64): bv64
  {
    if Opcode(w) == JAL then Add(pc, ImmJ(w))
    else if Opcode(w) == JALR then Even(Add(Reg(r, Rs1(w)), ImmI(w)))
    else if Opcode(w) == BRANCH && Branches(w, r) then Add(pc, ImmB(w))
    else Add(pc, len)
  }

  lemma NetBranch(w: bv64, r: IntRegs, pc: bv64, len: bv64)
    ensures var e := BranchEffect(w, r, pc, len);
            && Add(e.pc, len) == Add(pc, if Branches(w, r) then ImmB(w) else len)
            && (if e.act.Raises? then e.pc == pc else e.act.Idle?)
  {
    hide Add, Relative, Reg, ImmB, Funct3, Rs1, Rs2, BranchTaken;
    NetRelative(pc, ImmB(w), len);
  }

  /** Every instruction ends at its architectural target, and one that raises does not move pc. */
  lemma NetPc(w: bv64, r: IntRegs, pc: bv64, len: bv64)
    requires Effect32(w, r, pc, len).Some?
    ensures var e := Effect32(w, r, pc, len).value;
            && Add(e.pc, len) == TargetOf(w, r, pc, len)
            && (e.act.Raises? ==> e.pc == pc)
            && (e.pc != pc ==> e.act.Idle? || e.act.Write?)
  {
    hide Add, Relative, Absolute, Even, Reg, ImmI, ImmB, ImmJ, ImmU, ImmS, Opcode, Funct3, Funct7, Rd, Rs1, Rs2,
      Shamt,
      LoadAction, StoreAction, ImmAction, ImmWAction, RegAction, RegWAction, FloatOpcode, BranchEffect, Branches;
    NetRelative(pc, ImmJ(w), len);
    NetBranch(w, r, pc, len);
    NetAbsolute(Even(Add(Reg(r, Rs1(w)), ImmI(w))), len);
  }

  lemma LoadsKeep(w: bv64, r: IntRegs, pc: bv64, len: bv64)
    requires Effect32(w, r, pc, len).Some?
    ensures var a := Effect32(w, r, pc, len).value.act; a.LoadTo? ==> a.keep
  {
    hide Add, Reg, ImmI, ImmJ, ImmU, Opcode, Rd, Rs1, LoadAction, StoreAction, RegAction, RegWAction, BranchEffect,
      FloatOpcode, ImmAction, ImmWAction, Relative, Absolute, Even;
    LoadKeeps(w, r);
    NotLoads(w, r, pc, len);
  }

  lemma LoadKeeps(w: bv64, r: IntRegs)
    ensures LoadAction(w, r).LoadTo? ==> LoadAction(w, r).keep
  {
    hide Add, Reg, ImmI, Funct3, Rd, Rs1;
  }

  lemma NotLoads(w: bv64, r: IntRegs, pc: bv64, len: bv64)
    ensures !StoreAction(w, r).LoadTo? && !ImmAction(w, r).LoadTo? && !ImmWAction(w, r).LoadTo?
    ensures RegAction(w, r).Some? ==> !RegAction(w, r).value.LoadTo?
    ensures RegWAction(w, r).Some? ==> !RegWAction(w, r).value.LoadTo?
    ensures !BranchEffect(w, r, pc, len).act.LoadTo?
  {
    hide Add, Sub, Xor, Or, And, Sll, Srl, SraBy, SllW, SrlW, SraW, Below, BelowSigned, Reg, ImmI, ImmS, Funct3,
      Funct7,
      Rd, Rs1, Rs2, Shamt, Sext32, MulDivOp, BaseOp, MulW, DivW, DivUW, RemW, RemUW, SraLow,
      BranchTaken, Relative;
  }

  // ---- The shift of the low half -------------------------------------------------------------

  lemma SraNamed(v: bv64, n: BitIndex)
    ensures Sra(v, n) == if ReadBit(v, 63) then Not(Shr(Not(v), n)) else Shr(v, n)
  {
    hide Not, Shr;
  }

  lemma BackAgain(i: bv64, n: bv64)
    ensures Plus(i - n, n) == i
  {}

  lemma BackUp(i: BitIndex, n: BitIndex)
    ensures Plus(Minus(i, n), n) == i
  {
    hide Plus;
    BackAgain(i, n);
  }

  lemma SraAt(v: bv64, n: BitIndex, i: BitIndex)
    requires AtMost(n, i)
    ensures Minus(i, n) < 64 && ReadBit(Sra(v, n), Minus(i, n)) == ReadBit(v, i)
  {
    hide ReadBit, Sra, Shr, Not, Plus, Minus, AtMost;
    MinusIsIndex(i, n);
    BackUp(i, n);
    SraNamed(v, n);
    NotAt(Shr(Not(v), n), Minus(i, n));
    ShrAt(Not(v), n, Minus(i, n));
    ShrAt(v, n, Minus(i, n));
    NotAt(v, i);
  }

  lemma SignBit(v: bv64)
    ensures ReadBit(v, 31) == (v & 0x8000_0000 != 0)
  {}

  lemma SextOfBits(v: bv64)
    ensures Sext32(v) == if ReadBit(v, 31) then Or(v, 0xffff_ffff_0000_0000) else And(v, 0xffff_ffff)
  {
    hide ReadBit, Or, And;
    SignBit(v);
  }

  lemma HalvesAt(i: BitIndex)
    ensures ReadBit(0xffff_ffff_0000_0000, i) == AtMost(32, i) && ReadBit(0xffff_ffff, i) == !AtMost(32, i)
  {}

  lemma Sext32At(v: bv64, i: BitIndex)
    ensures ReadBit(Sext32(v), i) == ReadBit(v, if AtMost(32, i) then 31 else i)
  {
    hide ReadBit, Sext32, Or, And, AtMost;
    SextOfBits(v);
    HalvesAt(i);
    OrAt(v, 0xffff_ffff_0000_0000, i);
    MaskedAt(v, 0xffff_ffff, i);
  }

  /** sra is the ISA's shift of the whole register if and only if the register is a sign-extended
      word. */
  lemma SraExact(a: bv64, n: BitIndex)
    requires n < 32
    ensures SraLow(a, n) == Some(SraBy(a, n)) <==> Sext32(a) == a
  {
    hide ReadBit, Sra, Sext32, Minus;
    CountKept(n);
    if Sra(Sext32(a), n) == Sra(a, n) {
      forall i: BitIndex
        ensures ReadBit(Sext32(a), i) == ReadBit(a, i)
      {
        Sext32At(a, i);
        if AtMost(32, i) {
          SraAt(a, n, i);
          SraAt(Sext32(a), n, i);
        }
      }
      BitsDecide(Sext32(a), a);
    }
  }

  lemma CountKept(n: BitIndex)
    ensures n & 0x3f == n
  {}
}
