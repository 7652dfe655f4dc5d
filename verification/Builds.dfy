/** The emulator built with the translation cache and the one built without it run alike: over every
    run whose software respects its page tables, the two machines agree on everything but the cache. */
module Builds {
  import opened Memory
  import opened PageTable
  import opened Tlb
  import opened CsrFile
  import opened Hart
  import opened Traps
  import opened Interrupts
  import opened AccessPath
  import opened Decoder
  import opened Isa
  import opened Compressed
  import opened Atomics
  import opened System
  import opened Machine
  import opened Invariants

  /** `a` is the machine with the cache, `b` the one without; all else is the same. */
  predicate Same(a: State, b: State)
  {
    a.cached && !b.cached && b == a.(cached := false, tlb := b.tlb)
  }

  predicate SameResult(a: Option<State>, b: Option<State>)
  {
    match a
    case None => b.None?
    case Some(x) => b.Some? && Same(x, b.value)
  }

  lemma SameParts(a: State, b: State)
    requires Same(a, b)
    ensures b.csr == a.csr && b.mode == a.mode && b.regs == a.regs && b.pc == a.pc && b.exc == a.exc
    ensures b.excData == a.excData && b.sleep == a.sleep && b.mem == a.mem && b.root == a.root
  {}

  lemma SameRaise(a: State, b: State, e: Exception, data: bv64)
    requires Same(a, b)
    ensures Same(Raise(a, e, data), Raise(b, e, data))
  {}

  // ---- Accesses ---------------------------------------------------------------------------------------

  /** Page 0, if it is mapped at all, is accessed only with every slot in use. */
  ghost predicate AccessAllowed(s: State, va: bv64, acc: PageTable.Access)
  {
    || PageAllowed(s.tlb, va) || Bypass(s.root, CtxOf(s), acc)
    || Translate(s.mem, s.root, CtxOf(s), va, acc).pa.None?
  }

  lemma SameServes(a: State, b: State, va: bv64, acc: PageTable.Access)
    requires Same(a, b) && Sound(a) && AccessAllowed(a, va, acc)
    ensures var o := ServeIn(true, a.tlb, a.mem, a.root, CtxOf(a), va, acc);
            var p := ServeIn(false, b.tlb, b.mem, b.root, CtxOf(b), va, acc);
            o.mem == p.mem && o.pa == p.pa && !o.lost && !p.lost
  {
    hide InStep, ServeIn, Translate, PageAllowed, Bypass, CsrBit, MppMode;
    InStepParts(a.cached, a.tlb, a.mem, a.root);
    ServeInRefines(true, a.tlb, a.mem, a.root, CtxOf(a), va, acc);
    assert InStep(false, b.tlb, b.mem, b.root) by { Unsynced(b); }
    ServeInRefines(false, b.tlb, b.mem, b.root, CtxOf(b), va, acc);
  }

  lemma Unsynced(b: State)
    requires ValidMem(b.mem) && b.root.table % 8 == 0
    ensures InStep(false, b.tlb, b.mem, b.root)
  {
    hide Coherent;
  }

  lemma SameTranslated(a: State, b: State, va: bv64, acc: PageTable.Access)
    requires Same(a, b) && Sound(a) && AccessAllowed(a, va, acc)
    ensures var (x, p), (y, q) := Translated(a, va, acc), Translated(b, va, acc); Same(x, y) && p == q
  {
    hide ServeIn, CtxOf, Sound, AccessAllowed;
    SameServes(a, b, va, acc);
  }

  lemma SameBusLoad(a: State, b: State, pa: bv64, n: nat)
    requires Same(a, b)
    ensures var (x, v), (y, w) := BusLoad(a, pa, n), BusLoad(b, pa, n); Same(x, y) && v == w
  {
    hide Same, Raise, InRam, Memory.Load;
    SameParts(a, b);
    SameRaise(a, b, LoadAccessFault, 0);
  }

  lemma SameLoad(a: State, b: State, va: bv64, n: nat)
    requires Same(a, b) && Sound(a) && AccessAllowed(a, va, LoadAccess)
    ensures var (x, v), (y, w) := MmuLoad(a, va, n), MmuLoad(b, va, n); Same(x, y) && v == w
  {
    hide Same, Translated, BusLoad, Sound, AccessAllowed;
    SameTranslated(a, b, va, LoadAccess);
    var (x, p) := Translated(a, va, LoadAccess);
    var y := Translated(b, va, LoadAccess).0;
    SameParts(x, y);
    SameBusLoad(x, y, p, n);
  }

  lemma SameRenamed(a: State, b: State)
    requires Same(a, b)
    ensures Same(Renamed(a), Renamed(b))
  {}

  lemma FetchIs(s: State, va: bv64)
    ensures var t, pa := Translated(s, va, FetchAccess).0, Translated(s, va, FetchAccess).1;
            MmuFetch(s, va) ==
            if t.exc != NoException then (t, 0) else (Renamed(BusLoad(t, pa, 4).0), BusLoad(t, pa, 4).1)
  {
    hide Translated, BusLoad, Renamed;
  }

  lemma SameFetch(a: State, b: State, va: bv64)
    requires Same(a, b) && Sound(a) && AccessAllowed(a, va, FetchAccess)
    ensures var (x, v), (y, w) := MmuFetch(a, va), MmuFetch(b, va); Same(x, y) && v == w
  {
    hide Same, MmuFetch, Translated, BusLoad, Renamed, Sound, AccessAllowed;
    FetchIs(a, va);
    FetchIs(b, va);
    SameTranslated(a, b, va, FetchAccess);
    var x, p := Translated(a, va, FetchAccess).0, Translated(a, va, FetchAccess).1;
    var y := Translated(b, va, FetchAccess).0;
    SameParts(x, y);
    SameBusLoad(x, y, p, 4);
    SameRenamed(BusLoad(x, p, 4).0, BusLoad(y, p, 4).0);
  }

  lemma SameMemory(a: State, b: State, m: Mem)
    requires Same(a, b)
    ensures Same(a.(mem := m), b.(mem := m))
  {}

  lemma SameBusStore(a: State, b: State, pa: bv64, n: nat, v: bv64)
    requires Same(a, b)
    ensures Same(BusStore(a, pa, n, v), BusStore(b, pa, n, v))
  {
    hide Same, Raise, InRam, Memory.Store;
    SameParts(a, b);
    SameRaise(a, b, StoreAccessFault, 0);
    SameMemory(a, b, Memory.Store(a.mem, ToNat(pa), n, v));
  }

  lemma SameStore(a: State, b: State, va: bv64, n: nat, v: bv64)
    requires Same(a, b) && Sound(a) && AccessAllowed(a, va, StoreAccess)
    ensures Same(MmuStore(a, va, n, v), MmuStore(b, va, n, v))
  {
    hide Same, Translated, BusStore, Sound, AccessAllowed;
    SameTranslated(a, b, va, StoreAccess);
    var (x, p) := Translated(a, va, StoreAccess);
    var y := Translated(b, va, StoreAccess).0;
    SameParts(x, y);
    SameBusStore(x, y, p, n, v);
  }

  // ---- Instructions -------------------------------------------------------------------------------------

  /** Every access of the instruction is allowed. */
  ghost predicate EffectAllowed(s: State, e: Option<Effect>)
  {
    e.Some? ==>
      var t := s.(pc := e.value.pc);
      match e.value.act
      case LoadTo(_, a, _, _, _) => AccessAllowed(t, a, LoadAccess)
      case StoreTo(a, _, _) => AccessAllowed(t, a, StoreAccess)
      case _ => true
  }

  ghost predicate AtomicAllowed(s: State, w: bv64, n: nat)
  {
    var t := Checked(s, w, n);
    var a := Reg(t.regs, Rs1(w));
    if Funct5(w) == LR then AccessAllowed(t, a, LoadAccess)
    else if Funct5(w) == SC then
      a in t.reservations ==> AccessAllowed(t.(reservations := t.reservations - {a}), a, StoreAccess)
    else IsAmo(Funct5(w)) ==> AccessAllowed(t, a, LoadAccess) && AccessAllowed(MmuLoad(t, a, n).0, a, StoreAccess)
  }

  ghost predicate InsnAllowed(s: State, w: bv64)
  {
    if InsnSize(w) == 2 then EffectAllowed(s, Effect16(w, s.regs, s.pc))
    else if Opcode(w) == ATOMIC then
      (Funct3(w) == 2 ==> AtomicAllowed(s, w, 4)) && (Funct3(w) == 3 ==> AtomicAllowed(s, w, 8))
    else EffectAllowed(s, Effect32(w, s.regs, s.pc, 4))
  }

  lemma SameApply(a: State, b: State, e: Effect)
    requires Same(a, b) && Sound(a) && EffectAllowed(a, Some(e))
    ensures Same(Apply(a, e), Apply(b, e))
  {
    hide MmuLoad, MmuStore, Extend, Index, AccessAllowed, Sound;
    var t, u := a.(pc := e.pc), b.(pc := e.pc);
    SameCache(a, t);
    match e.act
    case LoadTo(rd, va, n, _, _) => SameLoad(t, u, va, n);
    case StoreTo(va, n, v) => SameStore(t, u, va, n, v);
    case _ =>
  }

  lemma SameAmo(a: State, b: State, w: bv64, n: nat)
    requires Same(a, b) && Sound(a)
    requires var x := Reg(a.regs, Rs1(w));
             AccessAllowed(a, x, LoadAccess) && AccessAllowed(MmuLoad(a, x, n).0, x, StoreAccess)
    ensures Same(Amo(a, w, n), Amo(b, w, n))
  {
    hide MmuLoad, MmuStore, Index, Reg, Rs1, Rs2, Rd, Funct5, Narrow, AmoValue, AccessAllowed, Sound;
    var x := Reg(a.regs, Rs1(w));
    var (t, v) := MmuLoad(a, x, n);
    SameLoad(a, b, x, n);
    LoadOnlyMarks(a, x, n);
    MarksSound(a, t);
    SameStore(t, MmuLoad(b, x, n).0, x, n, AmoValue(Funct5(w), n, v, Reg(a.regs, Rs2(w))));
  }

  lemma SameReserved(a: State, b: State, w: bv64, n: nat)
    requires Same(a, b) && Sound(a) && AccessAllowed(a, Reg(a.regs, Rs1(w)), LoadAccess)
    ensures Same(LoadReserved(a, w, n), LoadReserved(b, w, n))
  {
    hide MmuLoad, Index, Reg, Rs1, Rd, Narrow, AccessAllowed, Sound;
    SameLoad(a, b, Reg(a.regs, Rs1(w)), n);
  }

  lemma SameConditional(a: State, b: State, w: bv64, n: nat)
    requires Same(a, b) && Sound(a)
    requires var x := Reg(a.regs, Rs1(w));
             x in a.reservations ==> AccessAllowed(a.(reservations := a.reservations - {x}), x, StoreAccess)
    ensures Same(StoreConditional(a, w, n), StoreConditional(b, w, n))
  {
    hide MmuStore, Index, Reg, Rs1, Rs2, Rd, Low, AccessAllowed, Sound;
    var x := Reg(a.regs, Rs1(w));
    var t, u := a.(reservations := a.reservations - {x}), b.(reservations := b.reservations - {x});
    SameCache(a, t);
    if x in a.reservations {
      SameStore(t, u, x, n, Low(Reg(a.regs, Rs2(w)), n));
    }
  }

  lemma SameChecked(a: State, b: State, w: bv64, n: nat)
    requires Same(a, b)
    ensures Same(Checked(a, w, n), Checked(b, w, n))
  {
    hide Aligned, Reg, Rs1;
  }

  lemma SameAtomicOp(a: State, b: State, w: bv64, n: nat)
    requires Same(a, b) && Sound(a) && AtomicAllowed(a, w, n)
    ensures Same(AtomicOp(a, w, n), AtomicOp(b, w, n))
  {
    hide Checked, Amo, LoadReserved, StoreConditional, Funct5, IsAmo, Reg, Rs1, MmuLoad, AccessAllowed, Sound, Same,
      Raise;
    var t, u := Checked(a, w, n), Checked(b, w, n);
    SameChecked(a, b, w, n);
    CheckedKeeps(a, w, n);
    if Funct5(w) == LR {
      SameReserved(t, u, w, n);
    } else if Funct5(w) == SC {
      SameConditional(t, u, w, n);
    } else if IsAmo(Funct5(w)) {
      SameAmo(t, u, w, n);
    } else {
      SameRaise(t, u, IllegalInstruction, w);
    }
  }

  // ---- System instructions --------------------------------------------------------------------------------

  lemma SameUpdate(a: State, b: State)
    requires Same(a, b)
    ensures Same(MmuUpdate(a), MmuUpdate(b))
  {
    hide LoadCsr, RootOf;
  }

  lemma SameDefault(a: State, b: State, rd: bv64, x: Address, rhs: bv64, op: CsrOp)
    requires Same(a, b)
    ensures Same(DefaultHandler(a, rd, x, rhs, op), DefaultHandler(b, rd, x, rhs, op))
  {
    hide LoadCsr, StoreCsr, CsrResult, Index;
  }

  lemma SameSatp(a: State, b: State, w: bv64, rhs: bv64, op: CsrOp)
    requires Same(a, b)
    ensures Same(SatpHandler(a, w, rhs, op), SatpHandler(b, w, rhs, op))
  {
    hide Same, CsrBit, DefaultHandler, MmuUpdate, Rd, Raise;
    var t := if CsrBit(a.csr, MSTATUS, 20) then Raise(a, IllegalInstruction, w) else a;
    var u := if CsrBit(b.csr, MSTATUS, 20) then Raise(b, IllegalInstruction, w) else b;
    SameRaise(a, b, IllegalInstruction, w);
    assert b.csr == a.csr by { SameParts(a, b); }
    SameDefault(t, u, Rd(w), SATP, rhs, op);
    SameUpdate(DefaultHandler(t, Rd(w), SATP, rhs, op), DefaultHandler(u, Rd(w), SATP, rhs, op));
  }

  lemma SameSetReg(a: State, b: State, rd: bv64, v: bv64)
    requires Same(a, b)
    ensures Same(SetReg(a, rd, v), SetReg(b, rd, v))
  {
    hide Index;
  }

  lemma SameCsr(a: State, b: State, w: bv64, x: Address, rhs: bv64, op: CsrOp)
    requires Same(a, b)
    ensures SameResult(CsrAccess(a, w, x, rhs, op), CsrAccess(b, w, x, rhs, op))
  {
    hide Same, LoadCsr, CsrResult, DefaultHandler, SatpHandler, SetReg, Raise, Rd, IsFloatCsr, IsReadOnly;
    SameParts(a, b);
    SameSatp(a, b, w, rhs, op);
    SameSetReg(a, b, Rd(w), LoadCsr(a.csr, x));
    SameRaise(a, b, IllegalInstruction, w);
    SameDefault(a, b, Rd(w), x, rhs, op);
  }

  lemma SameReturns(a: State, b: State, w: bv64)
    requires Same(a, b)
    ensures Same(Sret(a, w), Sret(b, w)) && Same(Mret(a, w), Mret(b, w))
  {
    hide CsrBit, LoadCsr, SretRegs, MretRegs, MppMode, Back;
  }

  lemma SameFence(a: State, b: State, w: bv64)
    requires Same(a, b)
    ensures Same(FenceVma(a, w), FenceVma(b, w))
  {
    hide Same, CsrBit, MmuUpdate, Raise;
    SameParts(a, b);
    SameRaise(a, b, IllegalInstruction, w);
    var raises := CsrBit(a.csr, MSTATUS, 20) || a.mode == User;
    SameUpdate(if raises then Raise(a, IllegalInstruction, w) else a,
               if raises then Raise(b, IllegalInstruction, w) else b);
  }

  lemma SameCall(a: State, b: State, w: bv64)
    requires Same(a, b)
    ensures Same(ECall(a, w), ECall(b, w))
  {
    hide Same, Raise;
    SameParts(a, b);
    SameRaise(a, b, ECallMMode, a.pc);
    SameRaise(a, b, ECallSMode, a.pc);
    SameRaise(a, b, ECallUMode, a.pc);
    SameRaise(a, b, IllegalInstruction, w);
  }

  lemma SameEnvironment(a: State, b: State, w: bv64)
    requires Same(a, b)
    ensures Same(Environment(a, w), Environment(b, w))
  {
    hide Same, Sret, Mret, FenceVma, ECall, Funct7, Rs2, Raise;
    SameReturns(a, b, w);
    SameFence(a, b, w);
    SameCall(a, b, w);
    SameRaise(a, b, Breakpoint, 0);
    SameRaise(a, b, IllegalInstruction, w);
  }

  lemma SameSystem(a: State, b: State, w: bv64)
    requires Same(a, b)
    ensures SameResult(SystemOp(a, w), SystemOp(b, w))
  {
    hide Same, CsrAccess, Environment, Funct3, Rs1, Reg, CsrAddress, Raise;
    SameParts(a, b);
    var x, r := CsrAddress(w), Reg(a.regs, Rs1(w));
    match Funct3(w)
    case 0 => SameEnvironment(a, b, w);
    case 1 => SameCsr(a, b, w, x, r, ReadWrite);
    case 2 => SameCsr(a, b, w, x, r, ReadSet);
    case 3 => SameCsr(a, b, w, x, r, ReadClear);
    case 5 => SameCsr(a, b, w, x, Rs1(w), ReadWrite);
    case 6 => SameCsr(a, b, w, x, Rs1(w), ReadSet);
    case 7 => SameCsr(a, b, w, x, Rs1(w), ReadClear);
    case _ => SameRaise(a, b, IllegalInstruction, w);
  }

  lemma SamePerform(a: State, b: State, e: Option<Effect>)
    requires Same(a, b) && Sound(a) && EffectAllowed(a, e)
    ensures SameResult(Perform(a, e), Perform(b, e))
  {
    hide Same, Sound, Apply, EffectAllowed;
    if e.Some? {
      assert e == Some(e.value);
      SameApply(a, b, e.value);
    }
  }

  lemma SameAtomic(a: State, b: State, w: bv64)
    requires Same(a, b) && Sound(a)
    requires (Funct3(w) == 2 ==> AtomicAllowed(a, w, 4)) && (Funct3(w) == 3 ==> AtomicAllowed(a, w, 8))
    ensures Same(Atomic(a, w), Atomic(b, w))
  {
    hide Same, Sound, AtomicOp, AtomicAllowed, Funct3, Raise;
    SameRaise(a, b, IllegalInstruction, w);
    if Funct3(w) == 2 {
      SameAtomicOp(a, b, w, 4);
    } else if Funct3(w) == 3 {
      SameAtomicOp(a, b, w, 8);
    }
  }

  lemma SameExecute(a: State, b: State, w: bv64)
    requires Same(a, b) && Sound(a) && InsnAllowed(a, w)
    ensures SameResult(Execute(a, w), Execute(b, w))
  {
    hide Same, Sound, Effect16, Effect32, Perform, Atomic, SystemOp, InsnSize, Opcode, EffectAllowed, AtomicAllowed,
      Funct3;
    SameParts(a, b);
    if InsnSize(w) == 2 {
      SamePerform(a, b, Effect16(w, a.regs, a.pc));
    } else if Opcode(w) == ATOMIC {
      SameAtomic(a, b, w);
    } else if Opcode(w) == SYSTEM {
      SameSystem(a, b, w);
    } else {
      SamePerform(a, b, Effect32(w, a.regs, a.pc, 4));
    }
  }

  // ---- Steps ------------------------------------------------------------------------------------------------

  lemma SameEnter(a: State, b: State, t: Trap)
    requires Same(a, b)
    ensures Same(Enter(a, t), Enter(b, t))
  {
    hide ToSupervisor, SupervisorEntry, MachineEntry, Vector, LoadCsr;
    assert ToSupervisor(a, t) == ToSupervisor(b, t) by { SameDelegation(a, b, t); }
  }

  lemma SameDelegation(a: State, b: State, t: Trap)
    requires Same(a, b)
    ensures ToSupervisor(a, t) == ToSupervisor(b, t)
  {
    hide Delegated;
  }

  lemma SameCounted(a: State, b: State)
    requires Same(a, b)
    ensures Same(CountCycle(a), CountCycle(b))
  {
    hide LoadCsr, StoreCsr, Add;
  }

  lemma SameCsrSet(a: State, b: State, r: Regs)
    requires Same(a, b)
    ensures Same(a.(csr := r), b.(csr := r))
  {}

  lemma SamePoll(a: State, b: State, irq: bool)
    requires Same(a, b)
    ensures var (x, c), (y, d) := Poll(a, irq), Poll(b, irq); Same(x, y) && c == d
  {
    hide Same, Gated, FirstPending, Taken, WriteCsrBit, ORDER;
    SameParts(a, b);
    SameGate(a, b);
    SameCsrSet(a, b, Poll(a, irq).0.csr);
  }

  lemma SameGate(a: State, b: State)
    requires Same(a, b)
    ensures Gated(a) == Gated(b)
  {
    hide StatusOf;
  }

  lemma SamePrepared(a: State, b: State, irq: bool)
    requires Same(a, b)
    ensures Same(Prepared(a, irq), Prepared(b, irq))
  {
    hide Poll, Enter, CountCycle;
    SameCounted(a, b);
    SamePoll(CountCycle(a), CountCycle(b), irq);
    var (x, c) := Poll(CountCycle(a), irq);
    if c.Some? {
      SameEnter(x, Poll(CountCycle(b), irq).0, Trap.Interrupt(c.value));
    }
  }

  /** Every access of a step is allowed. */
  ghost predicate StepAllowed(s: State, irq: bool)
  {
    var t := Prepared(s, irq);
    var (u, w) := MmuFetch(t, t.pc);
    !t.sleep ==> AccessAllowed(t, t.pc, FetchAccess) && (u.exc == NoException && w != 0 ==> InsnAllowed(u, w))
  }

  lemma SameFetchAndExecute(a: State, b: State)
    requires Same(a, b) && Sound(a)
    requires var (u, w) := MmuFetch(a, a.pc);
             !a.sleep ==> AccessAllowed(a, a.pc, FetchAccess) && (u.exc == NoException && w != 0 ==> InsnAllowed(u, w))
    ensures match FetchAndExecute(a)
            case None => FetchAndExecute(b).None?
            case Some((v, n)) =>
              FetchAndExecute(b).Some? && Same(v, FetchAndExecute(b).value.0) && FetchAndExecute(b).value.1 == n
  {
    hide Same, Sound, MmuFetch, Execute, AccessAllowed, InsnAllowed, InsnSize, Raise;
    SameParts(a, b);
    if !a.sleep {
      SameFetch(a, b, a.pc);
      var (u, w) := MmuFetch(a, a.pc);
      var v := MmuFetch(b, a.pc).0;
      SameParts(u, v);
      FetchOnlyMarks(a, a.pc);
      MarksSound(a, u);
      SameRaise(u, v, IllegalInstruction, 0);
      if u.exc == NoException && w != 0 {
        SameExecute(u, v, w);
      }
    }
  }

  lemma SameTrapped(a: State, b: State)
    requires Same(a, b)
    ensures Same(Trapped(a), Trapped(b))
  {
    hide Same, Enter, Raise;
    SameParts(a, b);
    SameEnter(a, b, Trap.Fault(a.exc, a.excData));
    SameRaise(Enter(a, Trap.Fault(a.exc, a.excData)), Enter(b, Trap.Fault(a.exc, a.excData)), NoException, 0);
  }

  lemma SameAdvance(a: State, b: State, n: bv64)
    requires Same(a, b)
    ensures Same(a.(pc := Add(a.pc, n)), b.(pc := Add(b.pc, n)))
  {
    hide Add;
  }

  lemma SameStep(a: State, b: State, irq: bool)
    requires Same(a, b) && Sound(a) && StepAllowed(a, irq)
    ensures SameResult(Step(a, irq), Step(b, irq))
  {
    hide Same, Sound, Prepared, FetchAndExecute, Trapped, MmuFetch, AccessAllowed, InsnAllowed, Add;
    SamePrepared(a, b, irq);
    PreparedSound(a, irq);
    var p, q := Prepared(a, irq), Prepared(b, irq);
    SameFetchAndExecute(p, q);
    if FetchAndExecute(p).Some? {
      var (v, n) := FetchAndExecute(p).value;
      var w := FetchAndExecute(q).value.0;
      SameParts(v, w);
      SameTrapped(v, w);
      SameAdvance(v, w, n);
    }
  }

  ghost predicate RunAllowed(s: State, irqs: seq<bool>)
    decreases |irqs|
  {
    irqs == [] ||
    (StepAllowed(s, irqs[0]) && (Step(s, irqs[0]).Some? ==> RunAllowed(Step(s, irqs[0]).value, irqs[1..])))
  }

  /** Over every run of the cached machine whose software overwrites no table of a cached page, and
      which accesses a mapped page 0 with a full cache only, the machine without the cache runs alike
      and ends in the same state, cache aside. */
  lemma {:induction false} RunsAlike(a: State, b: State, irqs: seq<bool>)
    requires Same(a, b) && Settled(a) && Sound(a) && RunRespects(a, irqs) && RunAllowed(a, irqs)
    ensures SameResult(Steps(a, irqs), Steps(b, irqs))
    decreases |irqs|
  {
    hide Same, Sound, Step, StepAllowed, StepRespects, Mirrors;
    if irqs != [] {
      SameStep(a, b, irqs[0]);
      if Step(a, irqs[0]).Some? {
        StepSound(a, irqs[0]);
        StepSettled(a, irqs[0]);
        RunsAlike(Step(a, irqs[0]).value, Step(b, irqs[0]).value, irqs[1..]);
      }
    }
  }
}
