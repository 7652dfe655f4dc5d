/** What a trapping step may do to memory, whatever software has stored: only words that the walk of
    a cached page, or a walk of the step itself, has read as a leaf PTE are written. */
module TrapMarks {
  import opened Memory
  import opened PageTable
  import opened Pte
  import opened Tlb
  import opened CsrFile
  import opened Hart
  import opened Traps
  import opened AccessPath
  import opened Decoder
  import opened Isa
  import opened Compressed
  import opened Atomics
  import opened System
  import opened Machine
  import opened CacheRuns

  /** The memories agree outside the words at `sites`. */
  ghost predicate OnlyAt(m: Mem, m': Mem, sites: set<nat>)
  {
    && m'.base == m.base && |m'.data| == |m.data|
    && forall k | 0 <= k < |m.data| && Apart(m.base + k, sites) :: m'.data[k] == m.data[k]
  }

  predicate Apart(a: int, sites: set<nat>)
  {
    forall x | x in sites :: !(x <= a < x + 8)
  }

  /** The leaf PTEs that the recorded walks read. */
  function Sites(u: Fills): set<nat>
  {
    SiteOf(u[0].walk) + SiteOf(u[1].walk) + SiteOf(u[2].walk) + SiteOf(u[3].walk)
  }

  function SiteOf(w: Walk): set<nat>
  {
    if w.Leaf? then {w.addr} else {}
  }

  function WalkSite(s: State, va: bv64): set<nat>
  {
    SiteOf(WalkOf(s.mem, s.root, va))
  }

  lemma OnlyAtMore(m: Mem, m': Mem, x: set<nat>, y: set<nat>)
    requires OnlyAt(m, m', x) && x <= y
    ensures OnlyAt(m, m', y)
  {
    forall k | 0 <= k < |m.data| && Apart(m.base + k, y)
      ensures m'.data[k] == m.data[k]
    {
      assert Apart(m.base + k, x);
    }
  }

  lemma OnlyAtTwice(a: Mem, b: Mem, c: Mem, x: set<nat>)
    requires OnlyAt(a, b, x) && OnlyAt(b, c, x)
    ensures OnlyAt(a, c, x)
  {
    hide Apart;
  }

  lemma OnlyAtSelf(m: Mem, x: set<nat>)
    ensures OnlyAt(m, m, x)
  {}

  lemma StoredAt(m: Mem, a: nat, v: bv64, x: set<nat>)
    requires a in x
    ensures OnlyAt(m, Memory.Store(m, a, 8, v), x)
  {
    hide Bytes;
    var m' := Memory.Store(m, a, 8, v);
    forall k | 0 <= k < |m.data| && Apart(m.base + k, x)
      ensures m'.data[k] == m.data[k]
    {
      assert !(a <= m.base + k < a + 8);
    }
  }

  lemma RecordedSite(u: Fills, k: nat)
    requires k < TLB_ENTRIES && u[k].walk.Leaf?
    ensures u[k].walk.addr in Sites(u)
  {}

  lemma RefillSites(u: Fills, t: Cache, m: Mem, root: Root, va: bv64)
    ensures Sites(Refill(u, t, m, root, va)) <= Sites(u) + SiteOf(WalkOf(m, root, va))
  {
    hide WalkOf, Find, PageOf, Victim;
  }

  // ---- One access --------------------------------------------------------------------------------------

  lemma FinishAt(t: Cache, u: Fills, m: Mem, root: Root, k: nat, c: Ctx, va: bv64, acc: PageTable.Access)
    requires Whole(t) && Recorded(t, u, root) && k < TLB_ENTRIES
    ensures OnlyAt(m, Finish(t, m, k, c, va, acc).mem, Sites(u))
  {
    hide HasV, Marked, Memory.Store, WithOffset, EntryPermits, NeedsMark, EntryWhole, NoZeroUnlessFull, Sites, OnlyAt,
      FromWalk;
    OnlyAtSelf(m, Sites(u));
    if EntryPermits(t[k], EffectivePriv(c, acc), c.sum, c.mxr, acc) {
      if !Filled(t[k]) {
        EmptyDenies(t[k], EffectivePriv(c, acc), c.sum, c.mxr, acc);
      }
      FromWalkSite(t[k], u[k], root);
      RecordedSite(u, k);
      StoredAt(m, t[k].pteAddr, Marked(t[k].pte, acc), Sites(u));
    }
  }

  lemma FromWalkSite(e: Entry, f: Fill, root: Root)
    requires FromWalk(e, f, root)
    ensures f.walk.Leaf? && e.pteAddr == f.walk.addr
  {
    hide Clean, PhysBase;
  }

  lemma ServeAt(t: Cache, u: Fills, m: Mem, root: Root, c: Ctx, va: bv64, acc: PageTable.Access)
    requires Whole(t) && Recorded(t, u, root)
    ensures OnlyAt(m, Serve(t, m, root, c, va, acc).mem, Sites(u) + SiteOf(WalkOf(m, root, va)))
  {
    hide Whole, Recorded, Refill, Finish, LookupOf, Bypass, OnlyAt, Sites, WalkOf, SiteOf;
    OnlyAtSelf(m, Sites(u) + SiteOf(WalkOf(m, root, va)));
    var l := LookupOf(t, m, root, va);
    if !Bypass(root, c, acc) && l.Slot? {
      var u' := Refill(u, t, m, root, va);
      LookupWhole(t, m, root, va);
      LookupRecorded(t, u, m, root, va);
      FinishAt(l.tlb, u', m, root, l.index, c, va, acc);
      RefillSites(u, t, m, root, va);
      OnlyAtMore(m, Serve(t, m, root, c, va, acc).mem, Sites(u'), Sites(u) + SiteOf(WalkOf(m, root, va)));
    }
  }

  lemma TranslatedAt(s: State, u: Fills, va: bv64, acc: PageTable.Access)
    requires Sane(s, u)
    ensures OnlyAt(s.mem, Translated(s, va, acc).0.mem, Sites(u) + WalkSite(s, va))
    ensures Sites(Stamp(u, s, va, acc)) <= Sites(u) + WalkSite(s, va)
  {
    hide Whole, Recorded, Refill, Serve, CtxOf, Bypass, OnlyAt, Sites, SiteOf, WalkOf;
    ServeAt(s.tlb, u, s.mem, s.root, CtxOf(s), va, acc);
    RefillSites(u, s.tlb, s.mem, s.root, va);
  }

  lemma LoadAt(s: State, u: Fills, va: bv64, n: nat)
    requires Sane(s, u)
    ensures OnlyAt(s.mem, MmuLoad(s, va, n).0.mem, Sites(u) + WalkSite(s, va))
  {
    hide Sane, Translated, InRam, Memory.Load, OnlyAt, Sites, WalkSite;
    TranslatedAt(s, u, va, LoadAccess);
  }

  lemma FetchAt(s: State, u: Fills, va: bv64)
    requires Sane(s, u)
    ensures OnlyAt(s.mem, MmuFetch(s, va).0.mem, Sites(u) + WalkSite(s, va))
  {
    hide Sane, Translated, InRam, Memory.Load, OnlyAt, Sites, WalkSite;
    TranslatedAt(s, u, va, FetchAccess);
  }

  /** A store that ends in an exception. */
  lemma FaultingStoreAt(s: State, u: Fills, va: bv64, n: nat, v: bv64)
    requires Sane(s, u) && MmuStore(s, va, n, v).exc != NoException
    ensures OnlyAt(s.mem, MmuStore(s, va, n, v).mem, Sites(u) + WalkSite(s, va))
  {
    hide Sane, Translated, InRam, Memory.Store, OnlyAt, Sites, WalkSite;
    TranslatedAt(s, u, va, StoreAccess);
  }

  // ---- One instruction ------------------------------------------------------------------------------------

  /** The leaf PTEs that the walks for the accesses of an instruction read. */
  function EffectSites(s: State, e: Option<Effect>): set<nat>
  {
    if e.None? then {}
    else match e.value.act
      case LoadTo(_, a, _, _, _) => WalkSite(s, a)
      case StoreTo(a, _, _) => WalkSite(s, a)
      case _ => {}
  }

  /** An AMO walks again for its store, in the memory its load has left. */
  function AtomicSites(s: State, w: bv64, n: nat): set<nat>
  {
    var t := Checked(s, w, n);
    var a := Reg(t.regs, Rs1(w));
    WalkSite(t, a) + WalkSite(MmuLoad(t, a, n).0, a)
  }

  function InsnSites(s: State, w: bv64): set<nat>
  {
    if InsnSize(w) == 2 then EffectSites(s, Effect16(w, s.regs, s.pc))
    else if Opcode(w) == ATOMIC then AtomicSites(s, w, if Funct3(w) == 2 then 4 else 8)
    else EffectSites(s, Effect32(w, s.regs, s.pc, 4))
  }

  lemma ApplyAt(s: State, u: Fills, e: Effect)
    requires Sane(s, u) && s.exc == NoException && Apply(s, e).exc != NoException
    ensures OnlyAt(s.mem, Apply(s, e).mem, Sites(u) + EffectSites(s, Some(e)))
  {
    hide MmuLoad, MmuStore, Extend, Index, Sane, OnlyAt, Sites, WalkOf, SiteOf;
    var t := s.(pc := e.pc);
    SameSane(s, t, u);
    OnlyAtSelf(s.mem, Sites(u) + EffectSites(s, Some(e)));
    match e.act
    case LoadTo(rd, a, n, _, _) => LoadAt(t, u, a, n);
    case StoreTo(a, n, v) => FaultingStoreAt(t, u, a, n, v);
    case _ =>
  }

  lemma AmoAt(s: State, u: Fills, w: bv64, n: nat)
    requires Sane(s, u) && Amo(s, w, n).exc != NoException
    ensures var a := Reg(s.regs, Rs1(w));
            OnlyAt(s.mem, Amo(s, w, n).mem, Sites(u) + (WalkSite(s, a) + WalkSite(MmuLoad(s, a, n).0, a)))
  {
    hide MmuLoad, MmuStore, Index, Reg, Rs1, Rs2, Rd, Funct5, Narrow, AmoValue, Sane, OnlyAt, Sites, WalkSite, Stamp;
    var a := Reg(s.regs, Rs1(w));
    var (t, v) := MmuLoad(s, a, n);
    var x := AmoValue(Funct5(w), n, v, Reg(s.regs, Rs2(w)));
    var y := Sites(u) + (WalkSite(s, a) + WalkSite(t, a));
    LoadAt(s, u, a, n);
    LoadSane(s, u, a, n);
    TranslatedAt(s, u, a, LoadAccess);
    var u' := Stamp(u, s, a, LoadAccess);
    FaultingStoreAt(t, u', a, n, x);
    OnlyAtMore(s.mem, t.mem, Sites(u) + WalkSite(s, a), y);
    OnlyAtMore(t.mem, MmuStore(t, a, n, x).mem, Sites(u') + WalkSite(t, a), y);
    OnlyAtTwice(s.mem, t.mem, MmuStore(t, a, n, x).mem, y);
  }

  lemma ReservedAt(s: State, u: Fills, w: bv64, n: nat)
    requires Sane(s, u)
    ensures OnlyAt(s.mem, LoadReserved(s, w, n).mem, Sites(u) + WalkSite(s, Reg(s.regs, Rs1(w))))
  {
    hide MmuLoad, Index, Reg, Rs1, Rd, Narrow, Sane, OnlyAt, Sites, WalkSite;
    LoadAt(s, u, Reg(s.regs, Rs1(w)), n);
  }

  lemma ConditionalAt(s: State, u: Fills, w: bv64, n: nat)
    requires Sane(s, u) && StoreConditional(s, w, n).exc != NoException
    ensures OnlyAt(s.mem, StoreConditional(s, w, n).mem, Sites(u) + WalkSite(s, Reg(s.regs, Rs1(w))))
  {
    hide MmuStore, Index, Reg, Rs1, Rs2, Rd, Low, Sane, OnlyAt, Sites, WalkOf, SiteOf;
    var a := Reg(s.regs, Rs1(w));
    var t := s.(reservations := s.reservations - {a});
    SameSane(s, t, u);
    OnlyAtSelf(s.mem, Sites(u) + WalkSite(s, a));
    if a in s.reservations {
      FaultingStoreAt(t, u, a, n, Low(Reg(s.regs, Rs2(w)), n));
    }
  }

  lemma AtomicOpAt(s: State, u: Fills, w: bv64, n: nat)
    requires Sane(s, u) && AtomicOp(s, w, n).exc != NoException
    ensures OnlyAt(s.mem, AtomicOp(s, w, n).mem, Sites(u) + AtomicSites(s, w, n))
  {
    hide Checked, Amo, LoadReserved, StoreConditional, MmuLoad, Funct5, IsAmo, Reg, Rs1, Sane, OnlyAt, Sites, WalkSite;
    var t := Checked(s, w, n);
    CheckedCache(s, w, n);
    CheckedMemory(s, w, n);
    SameSane(s, t, u);
    var y := Sites(u) + AtomicSites(s, w, n);
    var a := Reg(t.regs, Rs1(w));
    OnlyAtSelf(s.mem, y);
    if Funct5(w) == LR {
      ReservedAt(t, u, w, n);
      OnlyAtMore(s.mem, AtomicOp(s, w, n).mem, Sites(u) + WalkSite(t, a), y);
    } else if Funct5(w) == SC {
      ConditionalAt(t, u, w, n);
      OnlyAtMore(s.mem, AtomicOp(s, w, n).mem, Sites(u) + WalkSite(t, a), y);
    } else if IsAmo(Funct5(w)) {
      AmoAt(t, u, w, n);
    }
  }

  lemma CheckedMemory(s: State, w: bv64, n: nat)
    ensures Checked(s, w, n).mem == s.mem
  {
    hide Aligned, Reg, Rs1;
  }

  lemma ExecuteAt(s: State, u: Fills, w: bv64)
    requires Sane(s, u) && s.exc == NoException && Execute(s, w).Some? && Execute(s, w).value.exc != NoException
    ensures OnlyAt(s.mem, Execute(s, w).value.mem, Sites(u) + InsnSites(s, w))
  {
    hide Effect16, Effect32, Apply, AtomicOp, SystemOp, Sane, InsnSize, Opcode, Funct3, EffectSites, AtomicSites,
      OnlyAt, Sites;
    OnlyAtSelf(s.mem, Sites(u) + InsnSites(s, w));
    if InsnSize(w) == 2 {
      ApplyAt(s, u, Effect16(w, s.regs, s.pc).value);
    } else if Opcode(w) == ATOMIC {
      if Funct3(w) == 2 {
        AtomicOpAt(s, u, w, 4);
      } else if Funct3(w) == 3 {
        AtomicOpAt(s, u, w, 8);
      }
    } else if Opcode(w) == SYSTEM {
      SystemKeeps(s, w);
    } else {
      ApplyAt(s, u, Effect32(w, s.regs, s.pc, 4).value);
    }
  }

  // ---- One step ----------------------------------------------------------------------------------------------

  /** The leaf PTEs that the walks of a step read. */
  function StepSites(s: State, irq: bool): set<nat>
  {
    var t := Prepared(s, irq);
    var (f, w) := MmuFetch(t, t.pc);
    WalkSite(t, t.pc) + if t.sleep || f.exc != NoException || w == 0 then {} else InsnSites(f, w)
  }

  /** With any tables and any memory: a step that ends in an exception has written nothing but leaf PTEs
      that the walk of a cached page, or a walk of its own, has read. */
  lemma TrapStepWritesLeaves(s: State, u: Fills, irq: bool)
    requires s.exc == NoException && Sane(s, u) && StepTraps(s, irq)
    ensures OnlyAt(s.mem, Step(s, irq).value.mem, Sites(u) + StepSites(s, irq))
  {
    hide Prepared, MmuFetch, Execute, Enter, Sane, Stamp, OnlyAt, Sites, WalkSite, InsnSites, Add, LoadCsr, InsnSize;
    PreparedFrame(s, irq);
    var t := Prepared(s, irq);
    SameSane(s, t, u);
    FetchAt(t, u, t.pc);
    FetchSane(t, u, t.pc);
    TranslatedAt(t, u, t.pc, FetchAccess);
    var (f, w) := MmuFetch(t, t.pc);
    var u' := Stamp(u, t, t.pc, FetchAccess);
    var y := Sites(u) + StepSites(s, irq);
    OnlyAtMore(s.mem, f.mem, Sites(u) + WalkSite(t, t.pc), y);
    OnlyAtSelf(s.mem, y);
    if !t.sleep && f.exc == NoException && w != 0 {
      var v := Execute(f, w).value;
      ExecuteAt(f, u', w);
      OnlyAtMore(f.mem, v.mem, Sites(u') + InsnSites(f, w), y);
      OnlyAtTwice(s.mem, f.mem, v.mem, y);
    }
    var v := FetchAndExecute(t).value.0;
    EnterFrame(v, Trap.Fault(v.exc, v.excData));
  }
}
