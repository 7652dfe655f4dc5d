/** Over whole runs of the machine the cache stays coherent with the page tables and satp as long
    as software respects its tables. */
module Invariants {
  import opened Memory
  import opened PageTable
  import opened Pte
  import opened Tlb
  import opened CsrFile
  import opened Hart
  import opened Traps
  import opened Marking
  import opened AccessPath
  import opened Decoder
  import opened Isa
  import opened Compressed
  import opened Atomics
  import opened System
  import opened Machine

  // ---- Coherence ----------------------------------------------------------------------------------

  /** A store to `va` that reaches memory overlaps no PTE on the walk of a cached page. */
  ghost predicate StoreApart(s: State, va: bv64, n: nat)
  {
    var (t, pa) := Translated(s, va, StoreAccess);
    t.cached && t.exc == NoException ==>
      forall k | 0 <= k < |t.tlb| ::
        Filled(t.tlb[k]) ==> Disjoint(PathOf(t.mem, t.root, t.tlb[k].virtBase), ToNat(pa), n)
  }

  lemma StoreSound(s: State, va: bv64, n: nat, v: bv64)
    requires Sound(s) && StoreApart(s, va, n)
    ensures Sound(MmuStore(s, va, n, v))
  {
    hide Translated, OnlyMarked, InStep, InRam, Memory.Store, PathOf, HasV;
    TranslatedOnlyMarks(s, va, StoreAccess);
    var (t, pa) := Translated(s, va, StoreAccess);
    if t.exc == NoException {
      InStepAfterWrite(t.cached, t.tlb, t.mem, t.root, ToNat(pa), n, v);
    }
  }

  /** Every store an instruction makes is apart from the page tables in use. */
  ghost predicate Respects(s: State, w: bv64)
  {
    if InsnSize(w) == 2 then EffectRespects(s, Effect16(w, s.regs, s.pc))
    else if Opcode(w) == ATOMIC then
      (Funct3(w) == 2 ==> AtomicRespects(s, w, 4)) && (Funct3(w) == 3 ==> AtomicRespects(s, w, 8))
    else EffectRespects(s, Effect32(w, s.regs, s.pc, 4))
  }

  ghost predicate EffectRespects(s: State, e: Option<Effect>)
  {
    e.Some? && e.value.act.StoreTo? ==> StoreApart(s.(pc := e.value.pc), e.value.act.address, e.value.act.bytes)
  }

  /** A load-reserved stores nothing, nor does a store-conditional without a reservation. */
  ghost predicate AtomicRespects(s: State, w: bv64, n: nat)
  {
    var t := Checked(s, w, n);
    var a := Reg(t.regs, Rs1(w));
    if Funct5(w) == LR then true
    else if Funct5(w) == SC then
      a in t.reservations ==> StoreApart(t.(reservations := t.reservations - {a}), a, n)
    else IsAmo(Funct5(w)) ==> StoreApart(MmuLoad(t, a, n).0, a, n)
  }

  lemma ApplySound(s: State, e: Effect)
    requires Sound(s) && EffectRespects(s, Some(e))
    ensures Sound(Apply(s, e))
  {
    hide MmuLoad, MmuStore, Extend, Index, StoreApart, InStep, OnlyMarked;
    var t := s.(pc := e.pc);
    SameCache(s, t);
    match e.act
    case LoadTo(rd, a, n, _, _) => LoadOnlyMarks(t, a, n);
    case StoreTo(a, n, v) => StoreSound(t, a, n, v);
    case _ =>
  }

  lemma AmoSound(s: State, w: bv64, n: nat)
    requires Sound(s) && StoreApart(MmuLoad(s, Reg(s.regs, Rs1(w)), n).0, Reg(s.regs, Rs1(w)), n)
    ensures Sound(Amo(s, w, n))
  {
    hide MmuLoad, MmuStore, Index, Reg, Rs1, Rs2, Rd, Funct5, Narrow, AmoValue, StoreApart, InStep, OnlyMarked;
    var a := Reg(s.regs, Rs1(w));
    var (t, v) := MmuLoad(s, a, n);
    LoadOnlyMarks(s, a, n);
    StoreSound(t, a, n, AmoValue(Funct5(w), n, v, Reg(s.regs, Rs2(w))));
  }

  lemma ConditionalSound(s: State, w: bv64, n: nat)
    requires Sound(s)
    requires var a := Reg(s.regs, Rs1(w));
             a in s.reservations ==> StoreApart(s.(reservations := s.reservations - {a}), a, n)
    ensures Sound(StoreConditional(s, w, n))
  {
    hide MmuStore, Index, Reg, Rs1, Rs2, Rd, Low, StoreApart, InStep;
    var a := Reg(s.regs, Rs1(w));
    var t := s.(reservations := s.reservations - {a});
    SameCache(s, t);
    if a in s.reservations {
      StoreSound(t, a, n, Low(Reg(s.regs, Rs2(w)), n));
    }
  }

  lemma AtomicOpSound(s: State, w: bv64, n: nat)
    requires Sound(s) && AtomicRespects(s, w, n)
    ensures Sound(AtomicOp(s, w, n))
  {
    hide Checked, Amo, LoadReserved, StoreConditional, Funct5, IsAmo, InStep, StoreApart, Reg, Rs1, MmuLoad,
      OnlyMarked;
    var t := Checked(s, w, n);
    CheckedKeeps(s, w, n);
    if Funct5(w) == LR {
      ReservedTraps(t, w, n);
    } else if Funct5(w) == SC {
      ConditionalSound(t, w, n);
    } else if IsAmo(Funct5(w)) {
      AmoSound(t, w, n);
    }
  }

  lemma ExecuteSound(s: State, w: bv64)
    requires Sound(s) && s.exc == NoException && Execute(s, w).Some? && Respects(s, w)
    ensures Sound(Execute(s, w).value)
  {
    hide Effect16, Effect32, Apply, AtomicOp, SystemOp, Sound, InsnSize, Opcode, EffectRespects, AtomicRespects, Funct3;
    if InsnSize(w) == 2 {
      ApplySound(s, Effect16(w, s.regs, s.pc).value);
    } else if Opcode(w) == ATOMIC {
      if Funct3(w) == 2 {
        AtomicOpSound(s, w, 4);
      } else if Funct3(w) == 3 {
        AtomicOpSound(s, w, 8);
      }
      RaisedSound(s, w);
    } else if Opcode(w) == SYSTEM {
      SystemSound(s, w);
    } else {
      ApplySound(s, Effect32(w, s.regs, s.pc, 4).value);
    }
  }

  lemma RaisedSound(s: State, w: bv64)
    requires Sound(s)
    ensures Sound(Raise(s, IllegalInstruction, w))
  {
    hide InStep;
  }

  lemma SystemSound(s: State, w: bv64)
    requires Sound(s) && SystemOp(s, w).Some?
    ensures Sound(SystemOp(s, w).value)
  {
    hide SystemOp, InStep, Mirrors;
    SystemKeeps(s, w);
    InStepParts(s.cached, s.tlb, s.mem, s.root);
    FlushedInStep(s.cached, s.mem, SystemOp(s, w).value.root);
  }

  /** The instruction a step executes, if it executes one, respects the page tables. */
  ghost predicate StepRespects(s: State, irq: bool)
  {
    var t := Prepared(s, irq);
    var (u, w) := MmuFetch(t, t.pc);
    !t.sleep && u.exc == NoException && w != 0 ==> Respects(u, w)
  }

  lemma StepSound(s: State, irq: bool)
    requires Sound(s) && s.exc == NoException && Step(s, irq).Some? && StepRespects(s, irq)
    ensures Sound(Step(s, irq).value)
  {
    hide Prepared, MmuFetch, Execute, Respects, Enter, InStep, OnlyMarked, Add, InsnSize, LoadCsr;
    PreparedFrame(s, irq);
    PreparedSound(s, irq);
    var t := Prepared(s, irq);
    FetchOnlyMarks(t, t.pc);
    var (u, w) := MmuFetch(t, t.pc);
    if !t.sleep && u.exc == NoException && w != 0 {
      ExecuteSound(u, w);
    }
    var v := FetchAndExecute(t).value.0;
    EnterFrame(v, Trap.Fault(v.exc, v.excData));
  }

  ghost predicate RunRespects(s: State, irqs: seq<bool>)
    decreases |irqs|
  {
    irqs == [] ||
    (StepRespects(s, irqs[0]) && (Step(s, irqs[0]).Some? ==> RunRespects(Step(s, irqs[0]).value, irqs[1..])))
  }

  /** Over every run of a machine whose software does not overwrite the page tables of cached
      pages, every filled entry of the cache is current under the root that mirrors satp. */
  lemma {:induction false} RunSound(s: State, irqs: seq<bool>)
    requires Settled(s) && Sound(s) && Steps(s, irqs).Some? && RunRespects(s, irqs)
    ensures Settled(Steps(s, irqs).value) && Sound(Steps(s, irqs).value)
    decreases |irqs|
  {
    hide Sound, Step, StepRespects, Mirrors;
    if irqs != [] {
      StepSound(s, irqs[0]);
      StepSettled(s, irqs[0]);
      RunSound(Step(s, irqs[0]).value, irqs[1..]);
    }
  }
}
