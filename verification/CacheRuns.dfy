/** What the translation cache holds in every reachable state of the machine, whatever software
    stores and wherever: whole entries only, each of them the result of a walk made under the
    root that satp selects now. */
module CacheRuns {
  import opened Memory
  import opened PageTable
  import opened Pte
  import opened Tlb
  import opened CsrFile
  import opened Hart
  import opened Traps
  import opened AccessPath
  import opened Decoder
  import opened Isa
  import opened Compressed
  import opened Atomics
  import opened System
  import opened Machine

  /** The root and the result of the walk that filled a slot. */
  datatype Fill = Fill(root: Root, walk: Walk)

  /** For each slot its last filling. */
  type Fills = u: seq<Fill> | |u| == TLB_ENTRIES witness seq(TLB_ENTRIES, _ => Fill(Root(BARE, 0), Walk.Fault))

  /** The entry is what the walk found, up to A and D, and the walk was made under `root`. */
  ghost predicate FromWalk(e: Entry, f: Fill, root: Root)
  {
    && f.root == root && f.walk.Leaf?
    && e.pteAddr == f.walk.addr && Clean(e.pte) == Clean(f.walk.pte)
    && e.physBase == PhysBase(f.walk.pte, e.virtBase, f.walk.level)
  }

  ghost predicate Recorded(t: seq<Entry>, u: Fills, root: Root)
  {
    |t| == TLB_ENTRIES && forall k | 0 <= k < TLB_ENTRIES && Filled(t[k]) :: FromWalk(t[k], u[k], root)
  }

  /** The record after a lookup. */
  function Refill(u: Fills, t: Cache, m: Mem, root: Root, va: bv64): Fills
  {
    if Find(t, PageOf(va), 0) == TLB_ENTRIES && WalkOf(m, root, va).Leaf?
    then u[Victim(t) := Fill(root, WalkOf(m, root, va))]
    else u
  }

  // ---- One translation ------------------------------------------------------------------------

  lemma NoneRecorded(u: Fills, root: Root)
    ensures Recorded(FLUSHED, u, root)
  {
    hide HasV, FromWalk;
    NothingValid();
  }

  lemma TouchRecorded(t: Cache, u: Fills, root: Root, k: nat)
    requires Recorded(t, u, root) && k < TLB_ENTRIES
    ensures Recorded(Touch(t, k), u, root)
  {
    hide HasV, Clean, PhysBase;
    var t' := Touch(t, k);
    forall j | 0 <= j < TLB_ENTRIES && Filled(t'[j])
      ensures FromWalk(t'[j], u[j], root)
    {
      assert Filled(t[j]) && FromWalk(t[j], u[j], root);
    }
  }

  lemma FilledFromWalk(m: Mem, root: Root, va: bv64)
    requires WalkOf(m, root, va).Leaf?
    ensures var w := WalkOf(m, root, va); FromWalk(FilledEntry(va, w.level, w.addr, w.pte), Fill(root, w), root)
  {
    hide WalkOf, PageOf, PhysBase, Clean, HasA, HasD, HasR, HasW, HasX, HasU;
    var w := WalkOf(m, root, va);
    PhysBaseOfPage(w.pte, va, w.level);
  }

  lemma LookupRecorded(t: Cache, u: Fills, m: Mem, root: Root, va: bv64)
    requires Recorded(t, u, root) && LookupOf(t, m, root, va).Slot?
    ensures Recorded(LookupOf(t, m, root, va).tlb, Refill(u, t, m, root, va), root)
  {
    hide Filled, PageOf, WalkOf, FromWalk, FilledEntry, Victim;
    var k := Find(t, PageOf(va), 0);
    if k < TLB_ENTRIES {
      TouchRecorded(t, u, root, k);
    } else {
      TouchRecorded(t, u, root, Victim(t));
      FilledFromWalk(m, root, va);
    }
  }

  lemma MarkFromWalk(e: Entry, f: Fill, root: Root, acc: PageTable.Access)
    ensures FromWalk(MarkEntry(e, acc), f, root) == FromWalk(e, f, root)
    ensures Filled(MarkEntry(e, acc)) == Filled(e)
  {
    hide HasV, HasA, HasD, HasR, HasW, HasX, HasU, Clean, Marked, PhysBase;
    CleanMarked(e.pte, acc);
    MarkedFlags(e.pte, acc);
  }

  lemma FinishRecorded(t: Cache, u: Fills, m: Mem, root: Root, k: nat, c: Ctx, va: bv64, acc: PageTable.Access)
    requires Recorded(t, u, root) && k < TLB_ENTRIES
    ensures Recorded(Finish(t, m, k, c, va, acc).tlb, u, root)
  {
    hide Filled, FromWalk, Marked, Memory.Store, WithOffset, EntryPermits, NeedsMark, MarkEntry;
    NoneRecorded(u, root);
    MarkFromWalk(t[k], u[k], root, acc);
  }

  lemma ServeRecorded(t: Cache, u: Fills, m: Mem, root: Root, c: Ctx, va: bv64, acc: PageTable.Access)
    requires Recorded(t, u, root)
    ensures Recorded(Serve(t, m, root, c, va, acc).tlb,
                     if Bypass(root, c, acc) then u else Refill(u, t, m, root, va), root)
  {
    hide Recorded, Refill, Finish, LookupOf, Bypass;
    var u' := Refill(u, t, m, root, va);
    NoneRecorded(u', root);
    var l := LookupOf(t, m, root, va);
    if l.Slot? {
      LookupRecorded(t, u, m, root, va);
      FinishRecorded(l.tlb, u', m, root, l.index, c, va, acc);
    }
  }

  // ---- One access of the hart -------------------------------------------------------------------

  /** The record after a translation on the hart. */
  function Stamp(u: Fills, s: State, va: bv64, acc: PageTable.Access): Fills
  {
    if Bypass(s.root, CtxOf(s), acc) then u else Refill(u, s.tlb, s.mem, s.root, va)
  }

  /** The cache is whole and its filled slots come from walks under the present root. */
  ghost predicate Sane(s: State, u: Fills)
  {
    s.cached && Whole(s.tlb) && Recorded(s.tlb, u, s.root)
  }

  lemma SameSane(s: State, t: State, u: Fills)
    requires Sane(s, u) && t.cached == s.cached && t.tlb == s.tlb && t.root == s.root
    ensures Sane(t, u)
  {
    hide Whole, Recorded;
  }

  lemma FlushedSane(s: State, u: Fills)
    requires s.cached && s.tlb == FLUSHED
    ensures Sane(s, u)
  {
    hide Whole, Recorded;
    FlushedWhole();
    NoneRecorded(u, s.root);
  }

  lemma TranslatedSane(s: State, u: Fills, va: bv64, acc: PageTable.Access)
    requires Sane(s, u)
    ensures Sane(Translated(s, va, acc).0, Stamp(u, s, va, acc))
  {
    hide Whole, Recorded, Refill, Serve, CtxOf, Bypass;
    ServeWhole(s.tlb, s.mem, s.root, CtxOf(s), va, acc);
    ServeRecorded(s.tlb, u, s.mem, s.root, CtxOf(s), va, acc);
  }

  lemma BusSane(t: State, u: Fills, pa: bv64, n: nat, v: bv64)
    requires Sane(t, u)
    ensures Sane(BusLoad(t, pa, n).0, u) && Sane(BusStore(t, pa, n, v), u)
  {
    hide Sane, InRam, Memory.Load, Memory.Store;
    SameSane(t, BusLoad(t, pa, n).0, u);
    SameSane(t, BusStore(t, pa, n, v), u);
  }

  lemma LoadSane(s: State, u: Fills, va: bv64, n: nat)
    requires Sane(s, u)
    ensures Sane(MmuLoad(s, va, n).0, Stamp(u, s, va, LoadAccess))
  {
    hide Translated, Sane, Stamp, BusLoad, BusStore;
    var (t, pa) := Translated(s, va, LoadAccess);
    TranslatedSane(s, u, va, LoadAccess);
    BusSane(t, Stamp(u, s, va, LoadAccess), pa, n, 0);
  }

  lemma FetchSane(s: State, u: Fills, va: bv64)
    requires Sane(s, u)
    ensures Sane(MmuFetch(s, va).0, Stamp(u, s, va, FetchAccess))
  {
    hide Translated, Sane, Stamp, BusLoad, BusStore;
    var t := Translated(s, va, FetchAccess).0;
    var pa, u' := Translated(s, va, FetchAccess).1, Stamp(u, s, va, FetchAccess);
    TranslatedSane(s, u, va, FetchAccess);
    BusSane(t, u', pa, 4, 0);
    SameSane(BusLoad(t, pa, 4).0, Renamed(BusLoad(t, pa, 4).0), u');
  }

  lemma StoreSane(s: State, u: Fills, va: bv64, n: nat, v: bv64)
    requires Sane(s, u)
    ensures Sane(MmuStore(s, va, n, v), Stamp(u, s, va, StoreAccess))
  {
    hide Translated, Sane, Stamp, BusLoad, BusStore;
    var (t, pa) := Translated(s, va, StoreAccess);
    TranslatedSane(s, u, va, StoreAccess);
    BusSane(t, Stamp(u, s, va, StoreAccess), pa, n, v);
  }

  // ---- One instruction ---------------------------------------------------------------------------

  function StampEffect(u: Fills, s: State, e: Option<Effect>): Fills
  {
    if e.None? then u
    else
      var t := s.(pc := e.value.pc);
      match e.value.act
      case LoadTo(_, a, _, _, _) => Stamp(u, t, a, LoadAccess)
      case StoreTo(a, _, _) => Stamp(u, t, a, StoreAccess)
      case _ => u
  }

  function StampAtomicOp(u: Fills, s: State, w: bv64, n: nat): Fills
  {
    var t := Checked(s, w, n);
    var a := Reg(t.regs, Rs1(w));
    if Funct5(w) == LR then Stamp(u, t, a, LoadAccess)
    else if Funct5(w) == SC then
      if a in t.reservations then Stamp(u, t.(reservations := t.reservations - {a}), a, StoreAccess) else u
    else if IsAmo(Funct5(w)) then Stamp(Stamp(u, t, a, LoadAccess), MmuLoad(t, a, n).0, a, StoreAccess)
    else u
  }

  function StampAtomic(u: Fills, s: State, w: bv64): Fills
  {
    if Funct3(w) == 2 then StampAtomicOp(u, s, w, 4)
    else if Funct3(w) == 3 then StampAtomicOp(u, s, w, 8)
    else u
  }

  /** The record after an instruction; system instructions access no memory. */
  function StampExecute(u: Fills, s: State, w: bv64): Fills
  {
    if InsnSize(w) == 2 then StampEffect(u, s, Effect16(w, s.regs, s.pc))
    else if Opcode(w) == ATOMIC then StampAtomic(u, s, w)
    else if Opcode(w) == SYSTEM then u
    else StampEffect(u, s, Effect32(w, s.regs, s.pc, 4))
  }

  lemma ApplySane(s: State, u: Fills, e: Effect)
    requires Sane(s, u)
    ensures Sane(Apply(s, e), StampEffect(u, s, Some(e)))
  {
    hide MmuLoad, MmuStore, Extend, Index, Sane, Stamp;
    var t := s.(pc := e.pc);
    SameSane(s, t, u);
    match e.act
    case LoadTo(rd, a, n, _, _) =>
      LoadSane(t, u, a, n);
      SameSane(MmuLoad(t, a, n).0, Apply(s, e), Stamp(u, t, a, LoadAccess));
    case StoreTo(a, n, v) => StoreSane(t, u, a, n, v);
    case _ => SameSane(s, Apply(s, e), u);
  }

  lemma AmoSane(s: State, u: Fills, w: bv64, n: nat)
    requires Sane(s, u)
    ensures var a := Reg(s.regs, Rs1(w));
            Sane(Amo(s, w, n), Stamp(Stamp(u, s, a, LoadAccess), MmuLoad(s, a, n).0, a, StoreAccess))
  {
    hide MmuLoad, MmuStore, Index, Reg, Rs1, Rs2, Rd, Funct5, Narrow, AmoValue, Sane, Stamp;
    var a := Reg(s.regs, Rs1(w));
    var (t, v) := MmuLoad(s, a, n);
    var x := AmoValue(Funct5(w), n, v, Reg(s.regs, Rs2(w)));
    var u' := Stamp(u, s, a, LoadAccess);
    LoadSane(s, u, a, n);
    StoreSane(t, u', a, n, x);
    SameSane(MmuStore(t, a, n, x), Amo(s, w, n), Stamp(u', t, a, StoreAccess));
  }

  lemma ReservedSane(s: State, u: Fills, w: bv64, n: nat)
    requires Sane(s, u)
    ensures Sane(LoadReserved(s, w, n), Stamp(u, s, Reg(s.regs, Rs1(w)), LoadAccess))
  {
    hide MmuLoad, Index, Reg, Rs1, Rd, Narrow, Sane, Stamp;
    var a := Reg(s.regs, Rs1(w));
    LoadSane(s, u, a, n);
    SameSane(MmuLoad(s, a, n).0, LoadReserved(s, w, n), Stamp(u, s, a, LoadAccess));
  }

  lemma ConditionalSane(s: State, u: Fills, w: bv64, n: nat)
    requires Sane(s, u)
    ensures var a := Reg(s.regs, Rs1(w));
            Sane(StoreConditional(s, w, n),
                 if a in s.reservations then Stamp(u, s.(reservations := s.reservations - {a}), a, StoreAccess) else u)
  {
    hide MmuStore, Index, Reg, Rs1, Rs2, Rd, Low, Sane, Stamp;
    var a := Reg(s.regs, Rs1(w));
    var t := s.(reservations := s.reservations - {a});
    var x := Low(Reg(s.regs, Rs2(w)), n);
    SameSane(s, t, u);
    StoreSane(t, u, a, n, x);
    if a in s.reservations {
      SameSane(MmuStore(t, a, n, x), StoreConditional(s, w, n), Stamp(u, t, a, StoreAccess));
    } else {
      SameSane(s, StoreConditional(s, w, n), u);
    }
  }

  lemma AtomicOpSane(s: State, u: Fills, w: bv64, n: nat)
    requires Sane(s, u)
    ensures Sane(AtomicOp(s, w, n), StampAtomicOp(u, s, w, n))
  {
    hide Checked, Amo, LoadReserved, StoreConditional, MmuLoad, Funct5, IsAmo, Reg, Rs1, Sane, Stamp;
    var t := Checked(s, w, n);
    CheckedCache(s, w, n);
    SameSane(s, t, u);
    AmoSane(t, u, w, n);
    ReservedSane(t, u, w, n);
    ConditionalSane(t, u, w, n);
    SameSane(t, Raise(t, IllegalInstruction, w), u);
  }

  lemma CheckedCache(s: State, w: bv64, n: nat)
    ensures var t := Checked(s, w, n); t.cached == s.cached && t.tlb == s.tlb && t.root == s.root
  {
    hide Aligned, Reg, Rs1;
  }

  lemma ExecuteSane(s: State, u: Fills, w: bv64)
    requires Sane(s, u) && Execute(s, w).Some?
    ensures Sane(Execute(s, w).value, StampExecute(u, s, w))
  {
    hide Effect16, Effect32, Apply, AtomicOp, SystemOp, Sane, InsnSize, Opcode, Funct3, StampEffect, StampAtomicOp;
    if InsnSize(w) == 2 {
      ApplySane(s, u, Effect16(w, s.regs, s.pc).value);
    } else if Opcode(w) == ATOMIC {
      AtomicOpSane(s, u, w, 4);
      AtomicOpSane(s, u, w, 8);
      SameSane(s, Raise(s, IllegalInstruction, w), u);
    } else if Opcode(w) == SYSTEM {
      SystemSane(s, u, w);
    } else {
      ApplySane(s, u, Effect32(w, s.regs, s.pc, 4).value);
    }
  }

  lemma SystemSane(s: State, u: Fills, w: bv64)
    requires Sane(s, u) && SystemOp(s, w).Some?
    ensures Sane(SystemOp(s, w).value, u)
  {
    hide SystemOp, Sane, Mirrors;
    SystemKeeps(s, w);
    var t := SystemOp(s, w).value;
    if t.root == s.root && t.tlb == s.tlb {
      SameSane(s, t, u);
    } else {
      assert s.cached by { SaneCached(s, u); }
      FlushedSane(t, u);
    }
  }

  lemma SaneCached(s: State, u: Fills)
    requires Sane(s, u)
    ensures s.cached
  {}

  // ---- Whole runs ---------------------------------------------------------------------------------

  function StampStep(u: Fills, s: State, irq: bool): Fills
  {
    var t := Prepared(s, irq);
    if t.sleep then u
    else
      var (f, w) := MmuFetch(t, t.pc);
      var u' := Stamp(u, t, t.pc, FetchAccess);
      if f.exc != NoException || w == 0 then u' else StampExecute(u', f, w)
  }

  /** The record at the end of a run. */
  function StampSteps(u: Fills, s: State, irqs: seq<bool>): Fills
    decreases |irqs|
  {
    if irqs == [] then u
    else match Step(s, irqs[0])
      case None => u
      case Some(t) => StampSteps(StampStep(u, s, irqs[0]), t, irqs[1..])
  }

  lemma FetchAndExecuteSane(t: State, u: Fills)
    requires Sane(t, u) && FetchAndExecute(t).Some?
    ensures Sane(FetchAndExecute(t).value.0,
                 if t.sleep then u
                 else var (f, w) := MmuFetch(t, t.pc);
                      var u' := Stamp(u, t, t.pc, FetchAccess);
                      if f.exc != NoException || w == 0 then u' else StampExecute(u', f, w))
  {
    hide MmuFetch, Execute, Sane, Stamp, StampExecute, InsnSize;
    FetchSane(t, u, t.pc);
    var (f, w) := MmuFetch(t, t.pc);
    var u' := Stamp(u, t, t.pc, FetchAccess);
    if !t.sleep && f.exc == NoException {
      if w == 0 {
        SameSane(f, Raise(f, IllegalInstruction, 0), u');
      } else {
        ExecuteSane(f, u', w);
      }
    }
  }

  lemma TrappedCache(v: State)
    ensures Trapped(v).cached == v.cached && Trapped(v).tlb == v.tlb && Trapped(v).root == v.root
  {
    hide Enter;
    EnterFrame(v, Trap.Fault(v.exc, v.excData));
  }

  lemma StepSane(s: State, u: Fills, irq: bool)
    requires Sane(s, u) && Step(s, irq).Some?
    ensures Sane(Step(s, irq).value, StampStep(u, s, irq))
  {
    hide Prepared, FetchAndExecute, Trapped, MmuFetch, Sane, Stamp, StampExecute, Add, LoadCsr;
    PreparedFrame(s, irq);
    var t := Prepared(s, irq);
    SameSane(s, t, u);
    FetchAndExecuteSane(t, u);
    var (v, n) := FetchAndExecute(t).value;
    TrappedCache(v);
    SameSane(v, Trapped(v), StampStep(u, s, irq));
    SameSane(v, v.(pc := Add(v.pc, n)), StampStep(u, s, irq));
  }

  /** In every reachable state the cache is whole, and every filled slot holds, up to A and D, the
      result of a walk made under the root in force: software may store anywhere. */
  lemma {:induction false} RunSane(s: State, u: Fills, irqs: seq<bool>)
    requires Sane(s, u) && Steps(s, irqs).Some?
    ensures Sane(Steps(s, irqs).value, StampSteps(u, s, irqs))
    decreases |irqs|
  {
    hide Sane, Step, StampStep;
    if irqs != [] {
      StepSane(s, u, irqs[0]);
      RunSane(Step(s, irqs[0]).value, StampStep(u, s, irqs[0]), irqs[1..]);
    }
  }

  predicate ReadsWhatItWrites(s: State, va: bv64)
  {
    var l := LookupOf(s.tlb, s.mem, s.root, va);
    l.Slot? && l.tlb[l.index].write ==> l.tlb[l.index].read
  }

  lemma SaneReads(s: State, u: Fills, va: bv64)
    requires Sane(s, u)
    ensures ReadsWhatItWrites(s, va)
  {
    hide LookupOf, Recorded, EntryWhole, NoZeroUnlessFull;
    if LookupOf(s.tlb, s.mem, s.root, va).Slot? {
      NeverWriteOnly(s.tlb, s.mem, s.root, va);
    }
  }

  /** After every run, no lookup of the next step, for its fetch or for the access or the two
      accesses of its instruction, yields an entry that is writable but not readable: the first
      check of translate is never taken. */
  lemma RunNeverWriteOnly(s: State, u: Fills, irqs: seq<bool>, irq: bool, a: bv64, n: nat, va: bv64)
    requires Sane(s, u) && Steps(s, irqs).Some?
    ensures var p := Prepared(Steps(s, irqs).value, irq);
            var f := MmuFetch(p, p.pc).0;
            ReadsWhatItWrites(p, va) && ReadsWhatItWrites(f, va) && ReadsWhatItWrites(MmuLoad(f, a, n).0, va)
  {
    hide Steps, StampSteps, Sane, Stamp, Prepared, MmuFetch, MmuLoad, ReadsWhatItWrites, LoadCsr;
    RunSane(s, u, irqs);
    var t, v := Steps(s, irqs).value, StampSteps(u, s, irqs);
    PreparedFrame(t, irq);
    var p := Prepared(t, irq);
    SameSane(t, p, v);
    FetchSane(p, v, p.pc);
    var f, w := MmuFetch(p, p.pc).0, Stamp(v, p, p.pc, FetchAccess);
    LoadSane(f, w, a, n);
    SaneReads(p, v, va);
    SaneReads(f, w, va);
    SaneReads(MmuLoad(f, a, n).0, Stamp(w, f, a, LoadAccess), va);
  }
}
