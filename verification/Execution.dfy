/** What executing an integer instruction leaves in registers and memory, in terms of the numbers in the
    registers and the bytes in memory. */
module Execution {
  import opened Bits
  import opened Memory
  import opened PageTable
  import opened Hart
  import opened MulDiv
  import opened AccessPath
  import opened Decoder
  import opened Isa
  import opened Compressed
  import opened Atomics
  import opened Machine
  import opened Ordering
  import opened PageArithmetic
  import opened Numbers
  import opened IntegerOps
  import opened LittleEndian

  /** A register field names the register of its number. */
  lemma IndexIs(i: bv64)
    requires i < 32
    ensures Index(i) == ToNat(i) < 32
  {}

  // ---- Arithmetic ----------------------------------------------------------------------------------------

  /** The result of an instruction between registers or with an immediate. */
  function ResultOf(w: bv64, r: IntRegs): Result
    requires Opcode(w) == 0x33 || Opcode(w) == 0x3b || Opcode(w) == 0x13 || Opcode(w) == 0x1b
  {
    var x, y, imm := Signed(Reg(r, Rs1(w))), Signed(Reg(r, Rs2(w))), Signed(ImmI(w));
    if Opcode(w) == 0x33 then OpResult(Funct7(w), Funct3(w), x, y)
    else if Opcode(w) == 0x3b then OpWResult(Funct7(w), Funct3(w), x, y)
    else if Opcode(w) == 0x13 then OpImmResult(Funct7(w) >> 1, Funct3(w), x, imm)
    else OpImmWResult(Funct7(w), Funct3(w), x, imm)
  }

  lemma EffectOf(w: bv64, r: IntRegs, pc: bv64)
    requires Opcode(w) == 0x33 || Opcode(w) == 0x3b || Opcode(w) == 0x13 || Opcode(w) == 0x1b
    ensures Effect32(w, r, pc, 4) == Done(pc, w, ResultOf(w, r))
  {
    hide Opcode, Effect32, OpResult, OpWResult, OpImmResult, OpImmWResult, Reg, Signed, Funct7, Funct3, Rs1, Rs2, ImmI,
      Done;
    if Opcode(w) == 0x33 {
      OpMeans(w, r, pc, 4);
    } else if Opcode(w) == 0x3b {
      OpWMeans(w, r, pc, 4);
    } else if Opcode(w) == 0x13 {
      OpImmMeans(w, r, pc, 4);
    } else {
      OpImmWMeans(w, r, pc, 4);
    }
  }

  /** The instruction writes its result to rd and changes nothing else, or it is illegal and raises. */
  lemma Computes(s: State, w: bv64)
    requires Opcode(w) == 0x33 || Opcode(w) == 0x3b || Opcode(w) == 0x13 || Opcode(w) == 0x1b
    ensures Execute32(s, w) ==
            match ResultOf(w, s.regs)
            case Value(x) => Some(s.(regs := s.regs[Index(Rd(w)) := Word(x)]))
            case IllegalWord => Some(s.(exc := IllegalInstruction, excData := w))
            case Undefined => None
  {
    hide Opcode, Effect32, ResultOf, Word, Index, Rd;
    EffectOf(w, s.regs, s.pc);
  }

  // ---- Loads ----------------------------------------------------------------------------------------------

  /** The number of bytes that a load or store moves, by funct3. */
  function WidthOf(f3: bv64): (n: Width)
  {
    match f3
    case 0 => 1
    case 1 => 2
    case 2 => 4
    case 3 => 8
    case 4 => 1
    case 5 => 2
    case 6 => 4
    case _ => 8
  }

  /** lb, lh, lw and ld extend the sign; lbu, lhu and lwu do not. */
  function LoadResult(f3: bv64, number: nat): int
  {
    match f3
    case 0 => Wrap(number, 0x100)
    case 1 => Wrap(number, 0x1_0000)
    case 2 => Wrap(number, TWO32)
    case _ => number
  }

  lemma ExtendMeans(v: bv64, f3: bv64)
    requires f3 < 7
    ensures Extend(v, WidthOf(f3), f3 < 4) == Word(LoadResult(f3, ToNat(v)))
  {
    hide ToNat, Word, Sext8, Sext16, Sext32, Wrap;
    SignedWord(v);
    Sext8Means(v);
    Sext16Means(v);
    Sext32Means(v);
  }

  /** What a load of `n` bytes does: a translation that faults, an address outside RAM, or the number that
      the bytes make up. */
  ghost predicate Loads(s: State, va: bv64, n: nat, u: State, v: bv64)
  {
    var (t, pa) := Translated(s, va, LoadAccess);
    && (t.exc != NoException ==> u == t && v == 0)
    && (t.exc == NoException && !InRam(t.mem, ToNat(pa)) ==>
          u == t.(exc := LoadAccessFault, excData := 0) && v == 0)
    && (t.exc == NoException && AllInRam(t.mem, ToNat(pa), n) ==>
          u == t && ToNat(v) == NumberOf(BytesAt(t.mem, ToNat(pa), n)))
  }

  lemma BusLoads(t: State, pa: bv64, n: nat)
    requires 0 < n <= 8
    ensures var (u, v) := BusLoad(t, pa, n);
            && (!InRam(t.mem, ToNat(pa)) ==> u == t.(exc := LoadAccessFault, excData := 0) && v == 0)
            && (AllInRam(t.mem, ToNat(pa), n) ==> u == t && ToNat(v) == NumberOf(BytesAt(t.mem, ToNat(pa), n)))
  {
    hide ToNat, Memory.Load, NumberOf, BytesAt;
    if AllInRam(t.mem, ToNat(pa), n) {
      LittleEndian.LoadMeans(t.mem, ToNat(pa), n);
    }
  }

  lemma MmuLoads(s: State, va: bv64, n: nat)
    requires 0 < n <= 8
    ensures var (u, v) := MmuLoad(s, va, n); Loads(s, va, n, u, v)
  {
    hide Translated, ToNat, BusLoad, NumberOf, BytesAt, InRam, AllInRam;
    var (t, pa) := Translated(s, va, LoadAccess);
    BusLoads(t, pa, n);
  }

  /** The state after a load instruction. */
  ghost predicate LoadDone(s: State, va: bv64, f3: bv64, rd: bv64, keep: bool, u: State)
  {
    var (t, pa) := Translated(s, va, LoadAccess);
    var lost := if keep then s.regs else s.regs[Index(rd) := 0];
    && (t.exc != NoException ==> u == t.(regs := lost))
    && (t.exc == NoException && !InRam(t.mem, ToNat(pa)) ==>
          u == t.(exc := LoadAccessFault, excData := 0, regs := lost))
    && (t.exc == NoException && AllInRam(t.mem, ToNat(pa), WidthOf(f3)) ==>
          var number := NumberOf(BytesAt(t.mem, ToNat(pa), WidthOf(f3)));
          u == t.(regs := s.regs[Index(rd) := Word(LoadResult(f3, number))]))
  }

  lemma LoadIs(s: State, e: Effect)
    requires e.pc == s.pc && e.act.LoadTo?
    ensures var (u, v) := MmuLoad(s, e.act.address, e.act.bytes);
            Apply(s, e) == if e.act.keep && u.exc != NoException then u
                           else SetReg(u, e.act.rd, Extend(v, e.act.bytes, e.act.signed))
  {
    hide MmuLoad, Extend, SetReg;
  }

  lemma LoadedFrame(s: State, va: bv64)
    ensures Translated(s, va, LoadAccess).0.regs == s.regs
  {
    hide Translated;
    TranslatedFrame(s, va, LoadAccess);
  }

  lemma LoadSettles(s: State, va: bv64, f3: bv64, rd: bv64, keep: bool, u: State, v: bv64)
    requires f3 < 7 && Loads(s, va, WidthOf(f3), u, v) && Translated(s, va, LoadAccess).0.regs == s.regs
    ensures LoadDone(s, va, f3, rd, keep,
                     if keep && u.exc != NoException then u else SetReg(u, rd, Extend(v, WidthOf(f3), f3 < 4)))
  {
    hide Translated, ToNat, Extend, NumberOf, BytesAt, LoadResult, Word, Index, InRam, AllInRam, WidthOf;
    ExtendMeans(v, f3);
    ExtendZero(WidthOf(f3), f3 < 4);
  }

  lemma LoadApplied(s: State, e: Effect, f3: bv64)
    requires e.pc == s.pc && e.act.LoadTo? && f3 < 7 && e.act.bytes == WidthOf(f3) && e.act.signed == (f3 < 4)
    ensures LoadDone(s, e.act.address, f3, e.act.rd, e.act.keep, Apply(s, e))
  {
    hide Translated, MmuLoad, Extend, Loads, LoadDone, Apply, WidthOf, SetReg;
    MmuLoads(s, e.act.address, WidthOf(f3));
    LoadIs(s, e);
    LoadedFrame(s, e.act.address);
    var (u, v) := MmuLoad(s, e.act.address, WidthOf(f3));
    LoadSettles(s, e.act.address, f3, e.act.rd, e.act.keep, u, v);
  }

  /** The integer loads of opcode LOAD; funct3 = 7 is illegal. */
  lemma LoadExecutes(s: State, w: bv64)
    requires Opcode(w) == 0x03
    ensures Execute32(s, w).Some?
    ensures var va := Word(Signed(Reg(s.regs, Rs1(w))) + Signed(ImmI(w)));
            if Funct3(w) == 7 then Execute32(s, w) == Some(s.(exc := IllegalInstruction, excData := w))
            else LoadDone(s, va, Funct3(w), Rd(w), true, Execute32(s, w).value)
  {
    hide Opcode, Funct3, Rs1, Rd, ImmI, Reg, Add, Sub, Signed, Word, LoadDone, Apply;
    Funct3Below(w);
    Sum(Reg(s.regs, Rs1(w)), ImmI(w));
    LoadEffect(w, s.regs, s.pc);
    if Funct3(w) < 7 {
      LoadApplied(s, Effect(s.pc, LoadAction(w, s.regs)), Funct3(w));
    } else {
      RaiseApplied(s, w);
    }
  }

  lemma RaiseApplied(s: State, w: bv64)
    ensures Apply(s, Effect(s.pc, Illegal(w))) == s.(exc := IllegalInstruction, excData := w)
  {}

  lemma LoadEffect(w: bv64, r: IntRegs, pc: bv64)
    requires Opcode(w) == 0x03
    ensures Effect32(w, r, pc, 4) == Some(Effect(pc, LoadAction(w, r)))
    ensures var a := LoadAction(w, r);
            if Funct3(w) < 7 then
              a == LoadTo(Rd(w), Add(Reg(r, Rs1(w)), ImmI(w)), WidthOf(Funct3(w)), Funct3(w) < 4, true)
            else a == Illegal(w)
  {
    hide Opcode, Funct3, Rs1, Rd, ImmI, Reg, Add;
    Funct3Below(w);
  }

  /** c.lw, c.ld, c.lwsp and c.ldsp. */
  predicate CompressedLoad(w: bv64)
  {
    (COpcode(w) == 0 || COpcode(w) == 2) && (CFunct3(w) == 2 || CFunct3(w) == 3)
  }

  /** Quadrant 2 goes through x2, the stack pointer. */
  function CompressedBase(w: bv64): bv64 { if COpcode(w) == 2 then 2 else CRs1(w) }

  function LoadOffset(w: bv64): bv64
  {
    if COpcode(w) == 2 then if CFunct3(w) == 2 then LwspOffset(w) else LdspOffset(w)
    else if CFunct3(w) == 2 then LwOffset(w) else LdOffset(w)
  }

  /** The compressed loads; their funct3 is that of the load they stand for. After a fault rd is 0. */
  lemma CompressedLoadExecutes(s: State, w: bv64)
    requires CompressedLoad(w)
    ensures Execute16(s, w).Some?
    ensures var va := Word(Signed(Reg(s.regs, CompressedBase(w))) + Signed(LoadOffset(w)));
            LoadDone(s, va, CFunct3(w), if COpcode(w) == 2 then Rd(w) else CRd(w), false, Execute16(s, w).value)
  {
    hide COpcode, CFunct3, Rd, CRd, CRs1, Reg, Add, Sub, Signed, Word, LoadDone, Apply, LwOffset, LdOffset, LwspOffset,
      LdspOffset;
    Sum(Reg(s.regs, CompressedBase(w)), LoadOffset(w));
    CompressedLoadEffect(w, s.regs, s.pc);
    LoadApplied(s, Effect16(w, s.regs, s.pc).value, CFunct3(w));
  }

  lemma CompressedLoadEffect(w: bv64, r: IntRegs, pc: bv64)
    requires CompressedLoad(w)
    ensures Effect16(w, r, pc) ==
            Some(Effect(pc, LoadTo(if COpcode(w) == 2 then Rd(w) else CRd(w),
                                   Add(Reg(r, CompressedBase(w)), LoadOffset(w)), WidthOf(CFunct3(w)), true, false)))
  {
    hide COpcode, CFunct3, Rd, CRd, CRs1, CRs2, Rs2Sp, Reg, Add, LwOffset, LdOffset, LwspOffset, LdspOffset, SwspOffset,
      SdspOffset, Addi4spnImm, Low32;
  }

  // ---- Stores ---------------------------------------------------------------------------------------------

  /** What a store of the low `n` bytes of the number in a register leaves: the fault of its translation,
      the access fault outside RAM, or memory with these bytes. */
  ghost predicate StoreDone(s: State, va: bv64, n: nat, x: int, u: State)
  {
    var (t, pa) := Translated(s, va, StoreAccess);
    && (t.exc != NoException ==> u == t)
    && (t.exc == NoException && !InRam(t.mem, ToNat(pa)) ==> u == t.(exc := StoreAccessFault, excData := 0))
    && (t.exc == NoException && AllInRam(t.mem, ToNat(pa), n) ==>
          u == t.(mem := u.mem) && Rewritten(t.mem, u.mem, ToNat(pa), n, x))
  }

  lemma SameLowBytes(m: Mem, m': Mem, a: int, n: nat, x: int, y: int)
    requires AllInRam(m, a, n) && Rewritten(m, m', a, n, x) && x % Scale(n) == y % Scale(n)
    ensures Rewritten(m, m', a, n, y)
  {
    hide NumberOf, Scale;
  }

  lemma BusStores(t: State, pa: bv64, n: nat, v: bv64)
    requires n > 0
    ensures var u := BusStore(t, pa, n, v);
            && (!InRam(t.mem, ToNat(pa)) ==> u == t.(exc := StoreAccessFault, excData := 0))
            && (AllInRam(t.mem, ToNat(pa), n) ==>
                  u == t.(mem := u.mem) && Rewritten(t.mem, u.mem, ToNat(pa), n, ToNat(v)))
  {
    hide ToNat, Memory.Store, Rewritten;
    if AllInRam(t.mem, ToNat(pa), n) {
      LittleEndian.StoreMeans(t.mem, ToNat(pa), n, v);
    }
  }

  lemma MmuStores(s: State, va: bv64, n: nat, v: bv64, x: int)
    requires n > 0 && ToNat(v) % Scale(n) == x % Scale(n)
    ensures StoreDone(s, va, n, x, MmuStore(s, va, n, v))
  {
    hide Translated, ToNat, BusStore, Rewritten, InRam, AllInRam, Scale;
    var (t, pa) := Translated(s, va, StoreAccess);
    BusStores(t, pa, n, v);
    if AllInRam(t.mem, ToNat(pa), n) && t.exc == NoException {
      SameLowBytes(t.mem, BusStore(t, pa, n, v).mem, ToNat(pa), n, ToNat(v), x);
    }
  }

  lemma {:induction false} ScaleDivides(x: int, y: int, n: nat)
    requires n <= 8 && Congruent(x, y, TWO64)
    ensures x % Scale(n) == y % Scale(n)
  {
    hide Scale;
    var k := x / TWO64 - y / TWO64;
    assert x == y + k * TWO64;
    Scales();
    ScalesMultiply(n, 8 - n);
    assert k * TWO64 == k * Scale(8 - n) * Scale(n);
    Shifted(x, y, k * Scale(8 - n), Scale(n));
  }

  lemma {:induction false} ScalesMultiply(n: nat, k: nat)
    ensures Scale(k) * Scale(n) == Scale(n + k)
    decreases k
  {
    if k > 0 {
      ScalesMultiply(n, k - 1);
      assert 256 * Scale(k - 1) * Scale(n) == 256 * (Scale(k - 1) * Scale(n));
    }
  }

  lemma RegisterBytes(v: bv64, n: nat)
    requires n <= 8
    ensures ToNat(v) % Scale(n) == Signed(v) % Scale(n)
  {
    hide ToNat, Signed, Scale;
    SignedCongruent(v);
    ScaleDivides(Signed(v), ToNat(v), n);
  }

  lemma StoreEffect(w: bv64, r: IntRegs, pc: bv64)
    requires Opcode(w) == 0x23
    ensures Effect32(w, r, pc, 4) ==
            Some(Effect(pc, if Funct3(w) < 4 then
                              StoreTo(Add(Reg(r, Rs1(w)), ImmS(w)), WidthOf(Funct3(w)), Reg(r, Rs2(w)))
                            else Illegal(w)))
  {
    hide Opcode, Funct3, Rs1, Rs2, ImmS, Reg, Add;
    Funct3Below(w);
  }

  lemma StoreApplied(s: State, a: bv64, n: Width, v: bv64)
    ensures Apply(s, Effect(s.pc, StoreTo(a, n, v))) == MmuStore(s, a, n, v)
  {
    hide MmuStore;
  }

  /** sb, sh, sw and sd. */
  lemma StoreExecutes(s: State, w: bv64)
    requires Opcode(w) == 0x23
    ensures Execute32(s, w).Some?
    ensures var va := Word(Signed(Reg(s.regs, Rs1(w))) + Signed(ImmS(w)));
            if Funct3(w) < 4 then
              StoreDone(s, va, WidthOf(Funct3(w)), Signed(Reg(s.regs, Rs2(w))), Execute32(s, w).value)
            else Execute32(s, w) == Some(s.(exc := IllegalInstruction, excData := w))
  {
    hide Opcode, Funct3, Rs1, Rs2, ImmS, Reg, Add, Sub, Signed, Word, StoreDone, Apply, MmuStore, WidthOf, Effect32;
    Sum(Reg(s.regs, Rs1(w)), ImmS(w));
    StoreEffect(w, s.regs, s.pc);
    var a, n, v := Add(Reg(s.regs, Rs1(w)), ImmS(w)), WidthOf(Funct3(w)), Reg(s.regs, Rs2(w));
    StoreApplied(s, a, n, v);
    RegisterBytes(v, n);
    MmuStores(s, a, n, v, Signed(v));
    RaiseApplied(s, w);
  }

  /** c.sw, c.sd, c.swsp and c.sdsp. */
  predicate CompressedStore(w: bv64)
  {
    (COpcode(w) == 0 || COpcode(w) == 2) && (CFunct3(w) == 6 || CFunct3(w) == 7)
  }

  function StoreOffset(w: bv64): bv64
  {
    if COpcode(w) == 2 then if CFunct3(w) == 6 then SwspOffset(w) else SdspOffset(w)
    else if CFunct3(w) == 6 then LwOffset(w) else LdOffset(w)
  }

  function StoreSource(w: bv64): bv64 { if COpcode(w) == 2 then Rs2Sp(w) else CRs2(w) }

  lemma CompressedStoreEffect(w: bv64, r: IntRegs, pc: bv64)
    requires CompressedStore(w)
    ensures var v := Reg(r, StoreSource(w));
            Effect16(w, r, pc) ==
            Some(Effect(pc, StoreTo(Add(Reg(r, CompressedBase(w)), StoreOffset(w)), if CFunct3(w) == 6 then 4 else 8,
                                    if CFunct3(w) == 6 then Low32(v) else v)))
  {
    hide COpcode, CFunct3, Rd, CRd, CRs1, CRs2, Rs2Sp, Reg, Add, LwOffset, LdOffset, LwspOffset, LdspOffset, SwspOffset,
      SdspOffset, Addi4spnImm, Low32;
  }

  lemma Low32Is(v: bv64)
    ensures Low32(v) == And(v, Ones(32)) && ToNat(32) == 32
  {}

  lemma LowRegister(v: bv64)
    ensures ToNat(Low32(v)) % Scale(4) == Signed(v) % Scale(4)
  {
    hide ToNat, Signed, Low32, And, Ones, Scale, Pow2;
    RegisterBytes(v, 4);
    Low32Is(v);
    LowBits(v, 32);
    WordPowers();
    Scales();
    ModUnique(ToNat(v) % TWO32, ToNat(v) % TWO32, 0, TWO32);
  }

  /** The compressed stores. */
  lemma CompressedStoreExecutes(s: State, w: bv64)
    requires CompressedStore(w)
    ensures Execute16(s, w).Some?
    ensures var va := Word(Signed(Reg(s.regs, CompressedBase(w))) + Signed(StoreOffset(w)));
            StoreDone(s, va, if CFunct3(w) == 6 then 4 else 8, Signed(Reg(s.regs, StoreSource(w))),
                      Execute16(s, w).value)
  {
    hide CFunct3, CompressedStore, CompressedBase, StoreOffset, StoreSource, Reg, Add, Sub, Signed, Word, StoreDone,
      Apply, MmuStore, Effect16, Low32;
    Sum(Reg(s.regs, CompressedBase(w)), StoreOffset(w));
    CompressedStoreEffect(w, s.regs, s.pc);
    var a, v := Add(Reg(s.regs, CompressedBase(w)), StoreOffset(w)), Reg(s.regs, StoreSource(w));
    if CFunct3(w) == 6 {
      StoreApplied(s, a, 4, Low32(v));
      LowRegister(v);
      MmuStores(s, a, 4, Low32(v), Signed(v));
    } else {
      StoreApplied(s, a, 8, v);
      RegisterBytes(v, 8);
      MmuStores(s, a, 8, v, Signed(v));
    }
  }

  // ---- Control ---------------------------------------------------------------------------------------------

  /** The state after a 32-bit instruction and the step's advance of pc by its length. */
  function Advanced(v: State): State { v.(pc := Add(v.pc, 4)) }

  lemma WriteApplied(s: State, rd: bv64, v: bv64)
    ensures Apply(s, Effect(s.pc, Write(rd, v))) == s.(regs := s.regs[Index(rd) := v])
  {
    hide Index;
  }

  /** lui and auipc. */
  lemma UpperExecutes(s: State, w: bv64)
    ensures Opcode(w) == 0x37 ==>
              Execute32(s, w) == Some(s.(regs := s.regs[Index(Rd(w)) := Word(Signed(ImmU(w)))]))
    ensures Opcode(w) == 0x17 ==>
              Execute32(s, w) == Some(s.(regs := s.regs[Index(Rd(w)) := Word(Signed(s.pc) + Signed(ImmU(w)))]))
  {
    hide Opcode, Rd, ImmU, Signed, Word, Index, Effect32, Apply;
    UpperMeans(w, s.regs, s.pc, 4);
    WriteApplied(s, Rd(w), Word(Signed(ImmU(w))));
    WriteApplied(s, Rd(w), Word(Signed(s.pc) + Signed(ImmU(w))));
  }

  lemma Four()
    ensures Signed(4) == 4
  {
    assert ToNat(4) == 4;
  }

  lemma LinkApplied(s: State, e: Effect)
    requires e.act.Write?
    ensures Advanced(Apply(s, e)) == s.(regs := s.regs[Index(e.act.rd) := e.act.value], pc := Add(e.pc, 4))
  {
    hide Index, Add;
  }

  /** jal: the link is the address of the next instruction. */
  lemma JalExecutes(s: State, w: bv64)
    requires Opcode(w) == 0x6f
    ensures Execute32(s, w).Some?
    ensures Advanced(Execute32(s, w).value) ==
            s.(regs := s.regs[Index(Rd(w)) := Word(Signed(s.pc) + 4)], pc := Word(Signed(s.pc) + Signed(ImmJ(w))))
  {
    hide Opcode, Rd, ImmJ, Signed, Word, Index, Effect32, Add, Apply, Advanced;
    Four();
    JalMeans(w, s.regs, s.pc, 4);
    LinkApplied(s, Effect32(w, s.regs, s.pc, 4).value);
  }

  /** jalr: the target is made even. */
  lemma JalrExecutes(s: State, w: bv64)
    requires Opcode(w) == 0x67
    ensures Execute32(s, w).Some?
    ensures var t := Signed(Reg(s.regs, Rs1(w))) + Signed(ImmI(w));
            Advanced(Execute32(s, w).value) ==
            s.(regs := s.regs[Index(Rd(w)) := Word(Signed(s.pc) + 4)], pc := Word(t - t % 2))
  {
    hide Opcode, Rd, Rs1, Reg, ImmI, Signed, Word, Index, Effect32, Add, Apply, Advanced;
    Four();
    JalrMeans(w, s.regs, s.pc, 4);
    LinkApplied(s, Effect32(w, s.regs, s.pc, 4).value);
  }

  lemma IdleApplied(s: State, e: Effect)
    requires e.act.Idle?
    ensures Advanced(Apply(s, e)) == s.(pc := Add(e.pc, 4))
  {
    hide Add;
  }

  /** The branches; funct3 = 2 and 3 are illegal. */
  lemma BranchExecutes(s: State, w: bv64)
    requires Opcode(w) == 0x63
    ensures Execute32(s, w).Some?
    ensures var f3, v := Funct3(w), Execute32(s, w).value;
            var taken := Taken(f3, Signed(Reg(s.regs, Rs1(w))), Signed(Reg(s.regs, Rs2(w))));
            if f3 == 2 || f3 == 3 then v == s.(exc := IllegalInstruction, excData := w)
            else Advanced(v) == s.(pc := Word(Signed(s.pc) + if taken then Signed(ImmB(w)) else 4))
  {
    hide Opcode, Funct3, Rs1, Rs2, Reg, ImmB, Signed, Word, Effect32, Add, Taken, Apply, Advanced;
    Four();
    BranchMeans(w, s.regs, s.pc, 4);
    RaiseApplied(s, w);
    if Funct3(w) != 2 && Funct3(w) != 3 {
      IdleApplied(s, Effect32(w, s.regs, s.pc, 4).value);
    }
  }

  // ---- Fields ----------------------------------------------------------------------------------------------

  lemma OpcodeIs(w: bv64)
    ensures Opcode(w) == And(Shr(w, 0), Ones(7))
  {}

  lemma RdIs(w: bv64)
    ensures Rd(w) == And(Shr(w, 7), Ones(5))
  {}

  lemma Funct3Is(w: bv64)
    ensures Funct3(w) == And(Shr(w, 12), Ones(3))
  {}

  lemma Rs1Is(w: bv64)
    ensures Rs1(w) == And(Shr(w, 15), Ones(5))
  {}

  lemma Rs2Is(w: bv64)
    ensures Rs2(w) == And(Shr(w, 20), Ones(5))
  {}

  lemma Funct7Is(w: bv64)
    ensures Funct7(w) == And(Shr(w, 25), Ones(7))
  {}

  lemma Funct5Is(w: bv64)
    ensures Funct5(w) == And(Shr(w, 27), Ones(5))
  {}

  lemma FieldIndices()
    ensures ToNat(0) == 0 && ToNat(3) == 3 && ToNat(5) == 5 && ToNat(7) == 7 && ToNat(12) == 12 && ToNat(15) == 15
    ensures ToNat(20) == 20 && ToNat(25) == 25 && ToNat(27) == 27
  {}

  lemma FieldMeans(w: bv64, at: BitIndex, n: BitIndex)
    ensures ToNat(And(Shr(w, at), Ones(n))) == ToNat(w) / Pow2(ToNat(at)) % Pow2(ToNat(n))
  {
    hide ToNat, And, Shr, Ones, Pow2;
    ShrMeans(w, at);
    LowBits(Shr(w, at), n);
  }

  /** Where the fields of a word are. */
  lemma FieldsMean(w: bv64)
    ensures var x := ToNat(w);
            && ToNat(Opcode(w)) == x / Pow2(0) % Pow2(7) && ToNat(Rd(w)) == x / Pow2(7) % Pow2(5)
            && ToNat(Funct3(w)) == x / Pow2(12) % Pow2(3) && ToNat(Rs1(w)) == x / Pow2(15) % Pow2(5)
            && ToNat(Rs2(w)) == x / Pow2(20) % Pow2(5) && ToNat(Funct7(w)) == x / Pow2(25) % Pow2(7)
            && ToNat(Funct5(w)) == x / Pow2(27) % Pow2(5)
  {
    hide ToNat, And, Shr, Ones, Pow2, Opcode, Rd, Funct3, Rs1, Rs2, Funct7, Funct5;
    OpcodeIs(w);
    RdIs(w);
    Funct3Is(w);
    Rs1Is(w);
    Rs2Is(w);
    Funct7Is(w);
    Funct5Is(w);
    FieldIndices();
    FieldMeans(w, 0, 7);
    FieldMeans(w, 7, 5);
    FieldMeans(w, 12, 3);
    FieldMeans(w, 15, 5);
    FieldMeans(w, 20, 5);
    FieldMeans(w, 25, 7);
    FieldMeans(w, 27, 5);
  }

  // ---- A step ----------------------------------------------------------------------------------------------

  /** What a fetch gives: the four bytes at the address of the program counter, even for a 16-bit
      instruction, or a fault. */
  ghost predicate Fetches(s: State, u: State, w: bv64)
  {
    var (t, pa) := Translated(s, s.pc, FetchAccess);
    && (t.exc != NoException ==> u == t)
    && (t.exc == NoException && !InRam(t.mem, ToNat(pa)) ==> u == t.(exc := InstructionAccessFault, excData := 0))
    && (t.exc == NoException && AllInRam(t.mem, ToNat(pa), 4) ==>
          u == t && ToNat(w) == NumberOf(BytesAt(t.mem, ToNat(pa), 4)))
  }

  lemma FetchMeans(s: State)
    ensures var (u, w) := MmuFetch(s, s.pc); Fetches(s, u, w)
  {
    hide Translated, ToNat, BusLoad, NumberOf, BytesAt, InRam, AllInRam;
    var (t, pa) := Translated(s, s.pc, FetchAccess);
    BusLoads(t, pa, 4);
  }

  lemma SizeBits(w: bv64)
    ensures COpcode(w) == And(w, Ones(2)) && ToNat(2) == 2 && ToNat(3) == 3
  {}

  /** Words that end in 11 are four bytes long, others two. */
  lemma SizeMeans(w: bv64)
    ensures InsnSize(w) == if ToNat(w) % 4 == 3 then 4 else 2
  {
    hide ToNat, And, Ones, COpcode, Isa.Below;
    SizeBits(w);
    LowBits(w, 2);
    assert Pow2(2) == 4;
    BelowMeans(COpcode(w), 3);
  }

  /** The second half of a step without an exception: a sleeping hart stays as it is; otherwise the word at
      pc was executed and pc advanced by its length. */
  ghost predicate Stepped(t: State, u: State)
  {
    if t.sleep then u == t
    else exists v, w, x :: SteppedBy(t, v, w, x, u)
  }

  ghost predicate SteppedBy(t: State, v: State, w: bv64, x: State, u: State)
  {
    && Fetches(t, v, w) && v.exc == NoException && w != 0
    && (if ToNat(w) % 4 == 3 then Execute32(v, w) else Execute16(v, w)) == Some(x) && x.exc == NoException
    && u == x.(pc := Word(Signed(x.pc) + if ToNat(w) % 4 == 3 then 4 else 2))
  }

  lemma Lengths()
    ensures Signed(4) == 4 && Signed(2) == 2 && Signed(0) == 0
  {
    assert ToNat(4) == 4 && ToNat(2) == 2 && ToNat(0) == 0;
  }

  lemma NoAdvance(pc: bv64)
    ensures Add(pc, 0) == pc
  {}

  lemma StepMeans(t: State)
    requires t.exc == NoException && FetchAndExecute(t).Some? && FetchAndExecute(t).value.0.exc == NoException
    ensures Proceed(t).Some? && Stepped(t, Proceed(t).value)
  {
    hide MmuFetch, Execute32, Execute16, InsnSize, ToNat, Word, Signed, Fetches, Add, Sub, Trapped;
    NoAdvance(t.pc);
    if !t.sleep {
      var (v, w) := MmuFetch(t, t.pc);
      FetchMeans(t);
      SizeMeans(w);
      Lengths();
      Four();
      var x := Execute(v, w).value;
      Sum(x.pc, InsnSize(w));
      assert SteppedBy(t, v, w, x, Proceed(t).value);
    }
  }

  /** The word 0 is illegal, whatever its length would be, and its exception has no data. */
  lemma ZeroWord(t: State)
    requires t.exc == NoException && !t.sleep && MmuFetch(t, t.pc).0.exc == NoException && MmuFetch(t, t.pc).1 == 0
    ensures FetchAndExecute(t).Some?
    ensures FetchAndExecute(t).value.0 == MmuFetch(t, t.pc).0.(exc := IllegalInstruction, excData := 0)
  {
    hide MmuFetch, Execute;
  }
}
