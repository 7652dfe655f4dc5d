/** One step of the machine (cpu.cpp): poll for interrupts, fetch, execute, trap. */
module Machine {
  import opened Memory
  import opened Bits
  import opened PageTable
  import opened Tlb
  import opened CsrFile
  import opened Hart
  import opened Traps
  import opened Interrupts
  import opened Marking
  import opened AccessPath
  import opened Decoder
  import opened Isa
  import opened Expansion
  import opened Compressed
  import opened Atomics
  import opened System

  function Extend(v: bv64, n: nat, signed: bool): bv64
  {
    if !signed then v
    else match n
      case 1 => Sext8(v)
      case 2 => Sext16(v)
      case 4 => Sext32(v)
      case _ => v
  }

  function Apply(s: State, e: Effect): State
  {
    var t := s.(pc := e.pc);
    match e.act
    case Idle => t
    case Write(rd, v) => SetReg(t, rd, v)
    case LoadTo(rd, a, n, signed, keep) =>
      var (u, v) := MmuLoad(t, a, n);
      if keep && u.exc != NoException then u else SetReg(u, rd, Extend(v, n, signed))
    case StoreTo(a, n, v) => MmuStore(t, a, n, v)
    case Raises(x, data) => Raise(t, x, data)
  }

  function Perform(s: State, e: Option<Effect>): Option<State>
  {
    match e
    case None => None
    case Some(x) => Some(Apply(s, x))
  }

  /** None for the instructions that are left out. */
  function Execute32(s: State, w: bv64): Option<State>
  {
    if Opcode(w) == ATOMIC then Some(Atomic(s, w))
    else if Opcode(w) == SYSTEM then SystemOp(s, w)
    else Perform(s, Effect32(w, s.regs, s.pc, 4))
  }

  function Execute16(s: State, w: bv64): Option<State>
  {
    Perform(s, Effect16(w, s.regs, s.pc))
  }

  function Execute(s: State, w: bv64): Option<State>
  {
    if InsnSize(w) == 2 then Execute16(s, w) else Execute32(s, w)
  }

  /** The exception pending in `s` is taken. */
  function Trapped(s: State): State
  {
    Raise(Enter(s, Trap.Fault(s.exc, s.excData)), NoException, 0)
  }

  function CountCycle(s: State): State
  {
    s.(csr := StoreCsr(s.csr, CYCLE, Add(LoadCsr(s.csr, CYCLE), 1)))
  }

  /** The part of a step before the fetch; register 0 is cleared. */
  function Prepared(s: State, irq: bool): State
  {
    var (t, c) := Poll(CountCycle(s), irq);
    var u := match c case None => t case Some(i) => Enter(t, Trap.Interrupt(i));
    u.(regs := u.regs[0 := 0])
  }

  /** The part of a step from the fetch up to the test for an exception, and the length. */
  function FetchAndExecute(t: State): Option<(State, bv64)>
  {
    if t.sleep then Some((t, 0))
    else
      var (u, w) := MmuFetch(t, t.pc);
      if u.exc != NoException then Some((u, 4))
      else if w == 0 then Some((Raise(u, IllegalInstruction, 0), 4))
      else match Execute(u, w)
        case None => None
        case Some(v) => Some((v, InsnSize(w)))
  }

  /** The part of a step from the fetch on. */
  function Proceed(t: State): Option<State>
  {
    match FetchAndExecute(t)
    case None => None
    case Some((v, size)) => if v.exc != NoException then Some(Trapped(v)) else Some(v.(pc := Add(v.pc, size)))
  }

  /** One step; None when the instruction is left out. */
  function Step(s: State, irq: bool): Option<State>
  {
    Proceed(Prepared(s, irq))
  }

  // ---- Compressed instructions on the machine ------------------------------------------------

  /** Register 0 is cleared before the next instruction, so it does not count. */
  function WithoutZero(s: State): State
  {
    s.(regs := s.regs[0 := 0])
  }

  lemma LoadFrame(s: State, va: bv64, n: nat)
    ensures var (t, v) := MmuLoad(s, va, n);
            && t == s.(tlb := t.tlb, mem := t.mem, exc := t.exc, excData := t.excData)
            && (t.exc != NoException ==> v == 0)
  {
    hide Translated, Memory.Load, InRam;
    TranslatedFrame(s, va, LoadAccess);
  }

  lemma ExtendZero(n: nat, signed: bool)
    ensures Extend(0, n, signed) == 0
  {}

  lemma LowBytes(v: bv64)
    ensures LowByte(Low32(v)) == LowByte(v) && LowByte(HighBytes(Low32(v))) == LowByte(HighBytes(v))
    ensures LowByte(HighBytes(HighBytes(Low32(v)))) == LowByte(HighBytes(HighBytes(v)))
    ensures LowByte(HighBytes(HighBytes(HighBytes(Low32(v))))) == LowByte(HighBytes(HighBytes(HighBytes(v))))
  {}

  lemma FourBytes(v: bv64)
    ensures Bytes(v, 4) == [LowByte(v), LowByte(HighBytes(v)), LowByte(HighBytes(HighBytes(v))),
                            LowByte(HighBytes(HighBytes(HighBytes(v))))]
  {
    hide LowByte, HighBytes;
    var a, b, c := HighBytes(v), HighBytes(HighBytes(v)), HighBytes(HighBytes(HighBytes(v)));
    assert Bytes(c, 1) == [LowByte(c)] + Bytes(HighBytes(c), 0);
    assert Bytes(b, 2) == [LowByte(b)] + Bytes(c, 1);
    assert Bytes(a, 3) == [LowByte(a)] + Bytes(b, 2);
  }

  /** A four-byte store writes the low half of the value. */
  lemma StoreLow(s: State, va: bv64, v: bv64, v': bv64)
    requires Low32(v) == Low32(v')
    ensures MmuStore(s, va, 4, v) == MmuStore(s, va, 4, v')
  {
    hide Translated, LowByte, HighBytes, Low32, Bytes, InRam;
    FourBytes(v);
    FourBytes(v');
    LowBytes(v);
    LowBytes(v');
    FourBytes(Low32(v));
  }

  /** The compressed load that faults clears rd; its expansion keeps it. */
  predicate LosesRegister(s: State, e: Effect)
  {
    match e.act
    case LoadTo(rd, a, n, _, _) =>
      Index(rd) != 0 && Reg(s.regs, rd) != 0 && MmuLoad(s.(pc := e.pc), a, n).0.exc != NoException
    case _ => false
  }

  /** Two loads that differ in what they do to rd after a fault. */
  lemma LoadsPart(s: State, e: Effect, f: Effect)
    requires e.act.LoadTo? && !e.act.keep && f.pc == e.pc && f.act == e.act.(keep := true)
    ensures WithoutZero(Apply(s, e)) == WithoutZero(Apply(s, f)) <==> !LosesRegister(s, e)
  {
    hide MmuLoad, Extend, Index;
    var t := s.(pc := e.pc);
    var (u, v) := MmuLoad(t, e.act.address, e.act.bytes);
    LoadFrame(t, e.act.address, e.act.bytes);
    ExtendZero(e.act.bytes, e.act.signed);
    var k := Index(e.act.rd);
    if u.exc != NoException {
      var x, y := WithoutZero(Apply(s, e)).regs, WithoutZero(Apply(s, f)).regs;
      assert x == s.regs[k := 0][0 := 0] && y == s.regs[0 := 0];
      if k == 0 || s.regs[k] == 0 {
        assert x == y;
      } else {
        assert x[k] != y[k];
      }
    }
  }

  /** Canonical stores and register writes have the same effect. */
  lemma SameCanonical(s: State, e: Effect, f: Effect)
    requires Canonical(e.act) == Canonical(f.act) && f.pc == e.pc && !e.act.LoadTo?
    ensures WithoutZero(Apply(s, e)) == WithoutZero(Apply(s, f))
  {
    hide MmuLoad, MmuStore, Index, Low32, WithoutZero, SetReg, Raise;
    if e.act.StoreTo? {
      if e.act.bytes == 4 {
        StoreLow(s.(pc := e.pc), e.act.address, e.act.value, f.act.value);
      }
    } else if e.act.Write? {
      WriteZero(s.(pc := e.pc), e.act.value);
    } else if f.act.Write? {
      WriteZero(s.(pc := e.pc), f.act.value);
    }
    if e.act.Write? && f.act.Write? && e.act.rd == 0 {
      WriteZero(s.(pc := e.pc), f.act.value);
    }
  }

  /** A write to register 0 is undone before the next instruction. */
  lemma WriteZero(s: State, v: bv64)
    ensures WithoutZero(SetReg(s, 0, v)) == WithoutZero(s)
  {
    hide Index;
    ZeroIndex();
  }

  lemma SameActions(s: State, e: Effect, f: Effect)
    requires Canonical(e.act) == Canonical(f.act) && f.pc == e.pc && Steady(e, s.pc) && (f.act.LoadTo? ==> f.act.keep)
    ensures WithoutZero(Apply(s, e)) == WithoutZero(Apply(s, f)) <==> !LosesRegister(s, e)
  {
    hide MmuLoad, Apply, Index, Low32, WithoutZero;
    if e.act.LoadTo? {
      LoadsPart(s, e, f);
    } else {
      SameCanonical(s, e, f);
    }
  }

  lemma ZeroIndex()
    ensures Index(0) == 0
  {}

  lemma DifferentPc(s: State, e: Effect, f: Effect)
    requires e.pc != f.pc && (e.act.Idle? || e.act.Write?) && (f.act.Idle? || f.act.Write?)
    ensures WithoutZero(Apply(s, e)) != WithoutZero(Apply(s, f)) && !LosesRegister(s, e)
  {}

  /** What the expansion of a compressed word does to the machine as an instruction of length 2. */
  function Expanded(s: State, x: bv64): Option<State>
  {
    if Opcode(x) == SYSTEM then SystemOp(s, x) else Perform(s, Effect32(x, s.regs, s.pc, 2))
  }

  /** A 16-bit instruction leaves the machine in the state its 32-bit expansion with length 2
      would leave it in, if and only if it is not c.ebreak, nor a register jump to an odd address,
      nor a load that faults with a nonzero destination. */
  lemma ExecutesExpansion(s: State, w: bv64)
    requires s.regs[0] == 0 && Expand(w).Some?
    requires IsEbreak(w) ==> s.exc == NoException
    ensures Execute16(s, w).Some? && Expanded(s, Expand(w).value).Some?
    ensures var e := Effect16(w, s.regs, s.pc).value;
            WithoutZero(Execute16(s, w).value) == WithoutZero(Expanded(s, Expand(w).value).value) <==>
            && !IsEbreak(w)
            && !(JumpsThroughRegister(w) && !EvenTarget(Reg(s.regs, Rd(w))))
            && !LosesRegister(s, e)
  {
    hide Effect16, Effect32, Expand, Apply, LosesRegister, JumpsThroughRegister, EvenTarget, Reg, Rd, WithoutZero,
      Opcode, SystemOp, IsEbreak;
    OnlyEbreak(w);
    if IsEbreak(w) {
      EbreakDiffers(s, w);
    } else {
      ExecutesBase(s, w);
    }
  }

  lemma EbreakDiffers(s: State, w: bv64)
    requires s.regs[0] == 0 && Expand(w) == Some(EBREAK) && s.exc == NoException
    ensures Execute16(s, w).Some? && Expanded(s, EBREAK).Some?
    ensures WithoutZero(Execute16(s, w).value) != WithoutZero(Expanded(s, EBREAK).value)
  {
    hide Effect16, Effect32, Expand, Opcode, Funct3, Funct7, Rs2, Absolute, Add;
    EbreakPrivileged();
    EbreakJumps(w, s.regs, s.pc);
  }

  lemma ExecutesBase(s: State, w: bv64)
    requires s.regs[0] == 0 && Expand(w).Some? && Expand(w).value != EBREAK
    ensures Execute16(s, w).Some? && Effect32(Expand(w).value, s.regs, s.pc, 2).Some?
    ensures var e := Effect16(w, s.regs, s.pc).value;
            var expanded := Apply(s, Effect32(Expand(w).value, s.regs, s.pc, 2).value);
            WithoutZero(Execute16(s, w).value) == WithoutZero(expanded) <==>
            !(JumpsThroughRegister(w) && !EvenTarget(Reg(s.regs, Rd(w)))) && !LosesRegister(s, e)
  {
    hide Effect16, Effect32, Expand, Apply, LosesRegister, JumpsThroughRegister, EvenTarget, Reg, Rd, WithoutZero,
      Canonical;
    SameAsExpansion(w, s.regs, s.pc);
    var e, f := Effect16(w, s.regs, s.pc).value, Effect32(Expand(w).value, s.regs, s.pc, 2).value;
    Steady16(w, s.regs, s.pc);
    LoadsKeep(Expand(w).value, s.regs, s.pc, 2);
    if e.pc == f.pc {
      SameActions(s, e, f);
    } else {
      CanonicalKinds(e.act, f.act);
      DifferentPc(s, e, f);
    }
  }

  lemma CanonicalKinds(a: Action, b: Action)
    requires Canonical(a) == Canonical(b) && (a.Idle? || a.Write?)
    ensures b.Idle? || b.Write?
  {}

  // ---- Frames --------------------------------------------------------------------------------------

  /** Entering a handler writes the trap registers and mstatus only. */
  lemma EntryRegs(r: Regs, mode: Priv, pc: bv64, t: Trap)
    ensures var x := SupervisorEntry(r, mode, pc, t);
            x == r[SEPC := Even(pc)][SCAUSE := CauseOf(t)][STVAL := ValueOf(t)][MSTATUS := x[MSTATUS]]
    ensures var y := MachineEntry(r, mode, pc, t);
            y == r[MEPC := Even(pc)][MCAUSE := CauseOf(t)][MTVAL := ValueOf(t)][MSTATUS := y[MSTATUS]]
  {
    hide LoadCsr, Bits.WriteBit, WriteBits, CsrBit, Even, CauseOf, ValueOf, Merge, And, SstatusMask, ModeCode;
  }

  lemma EnterFrame(s: State, t: Trap)
    ensures var e := Enter(s, t);
            && e == s.(sleep := e.sleep, mode := e.mode, pc := e.pc, csr := e.csr)
            && LoadCsr(e.csr, SATP) == LoadCsr(s.csr, SATP)
            && (if ToSupervisor(s, t) then e.csr[SEPC] == Even(s.pc) && e.csr[SCAUSE] == CauseOf(t)
                else e.csr[MEPC] == Even(s.pc) && e.csr[MCAUSE] == CauseOf(t))
  {
    hide SupervisorEntry, MachineEntry, Delegated, Vector, Even, CauseOf, ValueOf;
    EntryRegs(s.csr, s.mode, s.pc, t);
  }

  lemma PollFrame(s: State, irq: bool)
    ensures var t := Poll(s, irq).0;
            t == s.(csr := t.csr) && LoadCsr(t.csr, SATP) == LoadCsr(s.csr, SATP) && t.csr[MSTATUS] == s.csr[MSTATUS]
  {
    hide Gated, FirstPending, Bits.WriteBit, ORDER;
  }

  /** Before the fetch only CSRs, the mode, pc, sleep and register 0 change. */
  lemma PreparedFrame(s: State, irq: bool)
    ensures var t := Prepared(s, irq);
            && t == s.(sleep := t.sleep, mode := t.mode, pc := t.pc, csr := t.csr, regs := t.regs)
            && LoadCsr(t.csr, SATP) == LoadCsr(s.csr, SATP)
  {
    hide Poll, Enter, Add;
    PollFrame(CountCycle(s), irq);
    var (t, c) := Poll(CountCycle(s), irq);
    if c.Some? {
      EnterFrame(t, Trap.Interrupt(c.value));
    }
  }

  /** An instruction that ends in an exception has not moved pc. */
  lemma ApplyPc(s: State, e: Effect)
    requires s.exc == NoException && (e.pc == s.pc || e.act.Idle? || e.act.Write?) && Apply(s, e).exc != NoException
    ensures Apply(s, e).pc == s.pc
  {
    hide MmuLoad, Translated, BusStore, Extend, Index;
    var t := s.(pc := e.pc);
    match e.act
    case LoadTo(rd, a, n, _, _) => LoadFrame(t, a, n);
    case StoreTo(a, n, v) => StoreFrame(t, a, n, v);
    case _ =>
  }

  lemma TranslatedFrame(s: State, va: bv64, acc: PageTable.Access)
    ensures var (t, pa) := Translated(s, va, acc);
            t == s.(tlb := t.tlb, mem := t.mem, exc := t.exc, excData := t.excData)
  {
    hide ServeIn, CtxOf;
  }

  lemma StoreFrame(s: State, va: bv64, n: nat, v: bv64)
    ensures var t := MmuStore(s, va, n, v); t == s.(tlb := t.tlb, mem := t.mem, exc := t.exc, excData := t.excData)
  {
    hide Translated, Memory.Store, InRam;
    TranslatedFrame(s, va, StoreAccess);
  }

  lemma ApplyStoresNothing(s: State, e: Effect)
    requires s.exc == NoException && Sound(s) && Apply(s, e).exc != NoException
    ensures NoDataStored(s, Apply(s, e))
  {
    hide MmuLoad, MmuStore, Extend, Index, OnlyMarks, Sound, NoDataStored;
    var t := s.(pc := e.pc);
    SameCache(s, t);
    match e.act
    case Idle =>
    case Write(_, _) =>
    case LoadTo(rd, a, n, _, _) =>
      LoadOnlyMarks(t, a, n);
      OnlyMarksStoresNothing(t, MmuLoad(t, a, n).0, Apply(s, e));
      SameStores(t, s, Apply(s, e));
    case StoreTo(a, n, v) =>
      FaultingStoreOnlyMarks(t, a, n, v);
      OnlyMarksStoresNothing(t, Apply(s, e), Apply(s, e));
      SameStores(t, s, Apply(s, e));
    case Raises(_, _) => RaisedStoresNothing(s, Apply(s, e));
  }

  lemma SameCache(s: State, t: State)
    requires Sound(s) && t.tlb == s.tlb && t.mem == s.mem && t.root == s.root && t.cached == s.cached
    ensures Sound(t)
  {
    hide InStep;
  }

  predicate SameMachineState(s: State, t: State)
  {
    t.root == s.root && t.csr == s.csr && t.mode == s.mode && t.reservations == s.reservations
  }

  lemma RegisterOnly(s: State, t: State, rd: bv64, v: bv64)
    requires SameMachineState(s, t)
    ensures SameMachineState(s, SetReg(t, rd, v))
  {
    hide Index;
  }

  lemma AccessFrame(s: State, va: bv64, n: nat, v: bv64)
    ensures SameMachineState(s, MmuLoad(s, va, n).0) && SameMachineState(s, MmuStore(s, va, n, v))
  {
    hide MmuLoad, MmuStore;
    LoadFrame(s, va, n);
    StoreFrame(s, va, n, v);
  }

  lemma ApplyFrame(s: State, e: Effect)
    ensures var t := Apply(s, e);
            t.root == s.root && t.csr == s.csr && t.mode == s.mode && t.reservations == s.reservations
  {
    hide MmuLoad, MmuStore, Extend, SetReg;
    var t := s.(pc := e.pc);
    match e.act
    case Write(rd, v) => RegisterOnly(t, t, rd, v);
    case LoadTo(rd, a, n, signed, _) =>
      AccessFrame(t, a, n, 0);
      var (u, v) := MmuLoad(t, a, n);
      RegisterOnly(t, u, rd, Extend(v, n, signed));
    case StoreTo(a, n, v) => AccessFrame(t, a, n, v);
    case _ =>
  }

  // ---- Instructions --------------------------------------------------------------------------------

  /** What an instruction may do to the MMU, and what it may not do when it traps. */
  ghost predicate Disciplined(s: State, v: State)
  {
    && (v.exc != NoException ==> v.pc == s.pc)
    && (Mirrors(s) ==> Mirrors(v))
    && (v.exc != NoException && Sound(s) ==> OnlyMarked(s.mem, v.mem, s.root) && Sound(v))
  }

  lemma EffectDisciplined(s: State, e: Effect)
    requires s.exc == NoException && (e.pc == s.pc || e.act.Idle? || e.act.Write?)
    ensures Disciplined(s, Apply(s, e))
  {
    hide Apply, Sound, OnlyMarked, LoadCsr, RootOf;
    ApplyFrame(s, e);
    if Apply(s, e).exc != NoException {
      ApplyPc(s, e);
      if Sound(s) {
        ApplyStoresNothing(s, e);
      }
    }
  }

  predicate SameControl(s: State, t: State)
  {
    t.pc == s.pc && t.mode == s.mode && t.csr == s.csr && t.root == s.root
  }

  lemma AmoFrame(s: State, w: bv64, n: nat)
    ensures SameControl(s, Amo(s, w, n)) && Amo(s, w, n).reservations == s.reservations
  {
    hide MmuLoad, MmuStore, Index, Reg, Rs1, Rs2, Rd, Funct5, Narrow, AmoValue;
    var a := Reg(s.regs, Rs1(w));
    LoadFrame(s, a, n);
    var (u, v) := MmuLoad(s, a, n);
    StoreFrame(u, a, n, AmoValue(Funct5(w), n, v, Reg(s.regs, Rs2(w))));
  }

  lemma ReservedFrame(s: State, w: bv64, n: nat)
    ensures SameControl(s, LoadReserved(s, w, n))
  {
    hide MmuLoad, Index, Reg, Rs1, Rd, Narrow;
    LoadFrame(s, Reg(s.regs, Rs1(w)), n);
  }

  lemma ConditionalFrame(s: State, w: bv64, n: nat)
    ensures SameControl(s, StoreConditional(s, w, n))
    ensures StoreConditional(s, w, n).reservations == s.reservations - {Reg(s.regs, Rs1(w))}
  {
    hide MmuStore, Index, Reg, Rs1, Rs2, Rd, Low;
    var a := Reg(s.regs, Rs1(w));
    StoreFrame(s.(reservations := s.reservations - {a}), a, n, Low(Reg(s.regs, Rs2(w)), n));
  }

  lemma CheckedFrame(s: State, w: bv64, n: nat)
    ensures SameControl(s, Checked(s, w, n)) && Checked(s, w, n).reservations == s.reservations
    ensures Checked(s, w, n).regs == s.regs
  {
    hide Aligned, Reg, Rs1;
  }

  lemma AtomicOpFrame(s: State, w: bv64, n: nat)
    ensures SameControl(s, AtomicOp(s, w, n))
  {
    hide Checked, Amo, LoadReserved, StoreConditional, Funct5, IsAmo;
    var t := Checked(s, w, n);
    CheckedFrame(s, w, n);
    AmoFrame(t, w, n);
    ReservedFrame(t, w, n);
    ConditionalFrame(t, w, n);
  }

  lemma AtomicFrame(s: State, w: bv64)
    ensures SameControl(s, Atomic(s, w))
  {
    hide AtomicOp, Funct3;
    AtomicOpFrame(s, w, 4);
    AtomicOpFrame(s, w, 8);
  }

  lemma AtomicDisciplined(s: State, w: bv64)
    ensures Disciplined(s, Atomic(s, w))
  {
    hide Atomic, Sound, OnlyMarked, LoadCsr, RootOf;
    AtomicFrame(s, w);
    if Atomic(s, w).exc != NoException && Sound(s) {
      TrappingAtomicStoresNothing(s, w);
    }
  }

  lemma SystemDisciplined(s: State, w: bv64)
    requires s.exc == NoException && SystemOp(s, w).Some?
    ensures Disciplined(s, SystemOp(s, w).value)
  {
    hide SystemOp, InStep, OnlyMarked, LoadCsr, RootOf;
    SystemKeeps(s, w);
    var v := SystemOp(s, w).value;
    if Sound(s) {
      InStepParts(s.cached, s.tlb, s.mem, s.root);
      FlushedInStep(s.cached, s.mem, v.root);
      OnlyMarkedSelf(s.mem, s.root);
    }
  }

  lemma ExecuteDisciplined(s: State, w: bv64)
    requires s.exc == NoException && Execute(s, w).Some?
    ensures Disciplined(s, Execute(s, w).value)
  {
    hide Effect16, Effect32, Apply, Atomic, SystemOp, Disciplined, InsnSize, Opcode;
    if InsnSize(w) == 2 {
      Steady16(w, s.regs, s.pc);
      EffectDisciplined(s, Effect16(w, s.regs, s.pc).value);
    } else if Opcode(w) == ATOMIC {
      AtomicDisciplined(s, w);
    } else if Opcode(w) == SYSTEM {
      SystemDisciplined(s, w);
    } else {
      NetPc(w, s.regs, s.pc, 4);
      EffectDisciplined(s, Effect32(w, s.regs, s.pc, 4).value);
    }
  }

  // ---- Steps ------------------------------------------------------------------------------------------

  lemma FetchFrame(s: State, va: bv64)
    ensures var t := MmuFetch(s, va).0; t == s.(tlb := t.tlb, mem := t.mem, exc := t.exc, excData := t.excData)
  {
    hide Translated, Memory.Load, InRam;
    TranslatedFrame(s, va, FetchAccess);
  }

  /** From the fetch to the test for an exception. */
  lemma ExecutionDisciplined(t: State)
    requires t.exc == NoException && FetchAndExecute(t).Some?
    ensures Disciplined(t, FetchAndExecute(t).value.0)
  {
    hide MmuFetch, Execute, Disciplined, Sound, InsnSize;
    OnlyMarkedSelf(t.mem, t.root);
    if t.sleep {
      SelfDisciplined(t);
    } else {
      var (u, w) := MmuFetch(t, t.pc);
      FetchDisciplined(t);
      if u.exc == NoException && w != 0 {
        ExecuteDisciplined(u, w);
        DisciplinedTrans(t, Execute(u, w).value);
      } else if u.exc == NoException {
        RaisedDisciplined(t);
      }
    }
  }

  lemma SelfDisciplined(t: State)
    requires t.exc == NoException
    ensures Disciplined(t, t)
  {}

  lemma FetchDisciplined(t: State)
    requires t.exc == NoException
    ensures Disciplined(t, MmuFetch(t, t.pc).0)
  {
    hide MmuFetch, OnlyMarked, InStep, LoadCsr, RootOf;
    FetchFrame(t, t.pc);
    if Sound(t) {
      FetchOnlyMarks(t, t.pc);
    }
  }

  lemma RaisedDisciplined(t: State)
    requires t.exc == NoException && MmuFetch(t, t.pc).0.exc == NoException
    ensures Disciplined(t, Raise(MmuFetch(t, t.pc).0, IllegalInstruction, 0))
  {
    hide MmuFetch, OnlyMarked, InStep, LoadCsr, RootOf;
    FetchFrame(t, t.pc);
    if Sound(t) {
      FetchOnlyMarks(t, t.pc);
    }
  }

  /** A fetch followed by an instruction. */
  lemma DisciplinedTrans(t: State, v: State)
    requires t.exc == NoException && MmuFetch(t, t.pc).0.exc == NoException && Disciplined(MmuFetch(t, t.pc).0, v)
    ensures Disciplined(t, v)
  {
    hide MmuFetch, OnlyMarked, InStep, LoadCsr, RootOf;
    var u := MmuFetch(t, t.pc).0;
    FetchFrame(t, t.pc);
    if Sound(t) {
      FetchOnlyMarks(t, t.pc);
      InStepParts(t.cached, t.tlb, t.mem, t.root);
      if v.exc != NoException {
        OnlyMarkedTwice(t.mem, u.mem, v.mem, t.root);
      }
    }
  }

  /** Whether the step ends in an exception, and the state in which it is raised. */
  ghost predicate StepTraps(s: State, irq: bool)
  {
    Step(s, irq).Some? && FetchAndExecute(Prepared(s, irq)).value.0.exc != NoException
  }

  lemma PreparedSound(s: State, irq: bool)
    requires Sound(s)
    ensures Sound(Prepared(s, irq)) && Prepared(s, irq).mem == s.mem && Prepared(s, irq).root == s.root
  {
    hide Prepared, InStep, LoadCsr;
    PreparedFrame(s, irq);
  }

  /** A step that ends in an exception has changed no byte of data: memory only gained accessed
      and dirty bits in leaf PTEs. */
  lemma TrapStepStoresNothing(s: State, irq: bool)
    requires s.exc == NoException && Sound(s) && StepTraps(s, irq)
    ensures var s' := Step(s, irq).value; OnlyMarked(s.mem, s'.mem, s.root) && Sound(s')
  {
    hide Prepared, FetchAndExecute, InStep, OnlyMarked, Enter, LoadCsr, RootOf;
    PreparedFrame(s, irq);
    PreparedSound(s, irq);
    ExecutionDisciplined(Prepared(s, irq));
    var v := FetchAndExecute(Prepared(s, irq)).value.0;
    EnterFrame(v, Trap.Fault(v.exc, v.excData));
  }

  /** The saved epc is the address of the instruction that trapped, and the cause is its
      exception. */
  lemma EpcIsFaultingPc(s: State, irq: bool)
    requires s.exc == NoException && StepTraps(s, irq)
    ensures var v, s' := FetchAndExecute(Prepared(s, irq)).value.0, Step(s, irq).value;
            var t := Trap.Fault(v.exc, v.excData);
            && s'.csr[if ToSupervisor(v, t) then SEPC else MEPC] == Even(Prepared(s, irq).pc)
            && s'.csr[if ToSupervisor(v, t) then SCAUSE else MCAUSE] == ExceptionCode(v.exc)
  {
    hide Prepared, FetchAndExecute, Sound, OnlyMarked, Enter, LoadCsr, RootOf, Even, ToSupervisor, ExceptionCode;
    PreparedFrame(s, irq);
    ExecutionDisciplined(Prepared(s, irq));
    var v := FetchAndExecute(Prepared(s, irq)).value.0;
    EnterFrame(v, Trap.Fault(v.exc, v.excData));
  }

  /** When an interrupt is taken, epc is the address of the instruction not yet executed. */
  lemma InterruptEpc(s: State, irq: bool)
    requires Poll(CountCycle(s), irq).1.Some?
    ensures var (t, c) := Poll(CountCycle(s), irq);
            Prepared(s, irq).csr[if ToSupervisor(t, Trap.Interrupt(c.value)) then SEPC else MEPC] == Even(s.pc)
  {
    hide Poll, Enter, Even, ToSupervisor, StoreCsr, LoadCsr, Add;
    PollFrame(CountCycle(s), irq);
    var (t, c) := Poll(CountCycle(s), irq);
    EnterFrame(t, Trap.Interrupt(c.value));
  }

  /** No exception is pending between steps, and the MMU mirrors satp. */
  predicate Settled(s: State)
  {
    s.exc == NoException && Mirrors(s)
  }

  lemma StepSettled(s: State, irq: bool)
    requires Settled(s) && Step(s, irq).Some?
    ensures Settled(Step(s, irq).value)
  {
    hide Prepared, FetchAndExecute, Trapped, Sound, OnlyMarked, LoadCsr, RootOf, Add;
    PreparedFrame(s, irq);
    ExecutionDisciplined(Prepared(s, irq));
    TrappedSettled(FetchAndExecute(Prepared(s, irq)).value.0);
  }

  lemma TrappedSettled(v: State)
    ensures Trapped(v).exc == NoException && (Mirrors(v) ==> Mirrors(Trapped(v)))
  {
    hide Enter, LoadCsr, RootOf;
    EnterFrame(v, Trap.Fault(v.exc, v.excData));
  }

  /** A run of the machine; `irqs` tells for each step whether a device raises its line. None
      when it meets an instruction that is left out. */
  function Steps(s: State, irqs: seq<bool>): Option<State>
    decreases |irqs|
  {
    if irqs == [] then Some(s)
    else match Step(s, irqs[0])
      case None => None
      case Some(t) => Steps(t, irqs[1..])
  }

  /** In every reachable state the MMU mirrors satp. */
  lemma {:induction false} RunSettled(s: State, irqs: seq<bool>)
    requires Settled(s) && Steps(s, irqs).Some?
    ensures Settled(Steps(s, irqs).value)
    decreases |irqs|
  {
    hide Settled, Step;
    if irqs != [] {
      StepSettled(s, irqs[0]);
      RunSettled(Step(s, irqs[0]).value, irqs[1..]);
    }
  }
}
