/** Loads, stores and fetches through the MMU and the bus, on the state of the hart
    (mmu.cpp, bus.cpp). RAM is the only device on this bus. */
module AccessPath {
  import opened Memory
  import opened PageTable
  import opened Tlb
  import opened Bits
  import opened CsrFile
  import opened Hart
  import opened Marking

  function CtxOf(s: State): Ctx
  {
    Ctx(s.mode, CsrBit(s.csr, MSTATUS, 17), MppMode(s.csr), CsrBit(s.csr, MSTATUS, 18), CsrBit(s.csr, MSTATUS, 19))
  }

  lemma SameContext(s: State, t: State)
    requires t.mode == s.mode && t.csr == s.csr
    ensures CtxOf(t) == CtxOf(s)
  {
    hide CsrBit, MppMode;
  }

  function PageFault(acc: PageTable.Access): Exception
  {
    match acc
    case LoadAccess => LoadPageFault
    case StoreAccess => StorePageFault
    case FetchAccess => InstructionPageFault
  }

  /** What a translation, served with or without the cache, does to the hart. */
  function Outcome(s: State, o: Served, va: bv64, acc: PageTable.Access): (State, bv64)
    requires |o.tlb| == TLB_ENTRIES
  {
    match o.pa
    case Some(pa) =>
      var t := s.(tlb := o.tlb, mem := o.mem);
      (if o.lost then Raise(t, StoreAccessFault, 0) else t, pa)
    case None => (Raise(s.(tlb := o.tlb, mem := o.mem), PageFault(acc), va), 0)
  }

  function Translated(s: State, va: bv64, acc: PageTable.Access): (State, bv64)
  {
    Outcome(s, ServeIn(s.cached, s.tlb, s.mem, s.root, CtxOf(s), va, acc), va, acc)
  }

  /** The part of a translation that follows the lookup of slot `k`. */
  function Finished(s: State, k: nat, va: bv64, acc: PageTable.Access): (State, bv64)
    requires k < TLB_ENTRIES
  {
    Outcome(s, Finish(s.tlb, s.mem, k, CtxOf(s), va, acc), va, acc)
  }

  lemma PassedThrough(s: State, va: bv64, acc: PageTable.Access)
    requires Bypass(s.root, CtxOf(s), acc)
    ensures Translated(s, va, acc) == (s, va)
  {
    hide LookupOf, DirectLookup, Finish, CtxOf;
  }

  lemma LookedUp(s: State, va: bv64, acc: PageTable.Access)
    requires !Bypass(s.root, CtxOf(s), acc)
    ensures Translated(s, va, acc) ==
            match LookupIn(s.cached, s.tlb, s.mem, s.root, va)
            case Missing => (Raise(s.(tlb := FLUSHED), PageFault(acc), va), 0)
            case Slot(t, k) => Finished(s.(tlb := t), k, va, acc)
  {
    hide LookupOf, DirectLookup, Finish, CsrBit, MppMode;
  }

  /** The hart after slot `k`, which held `e`, was marked and written back. */
  function WrittenBack(s: State, k: nat, e: Entry): State
    requires k < TLB_ENTRIES
  {
    var t := s.(tlb := s.tlb[k := e], mem := Memory.Store(s.mem, e.pteAddr, 8, e.pte));
    if InRam(s.mem, e.pteAddr) then t else Raise(t, StoreAccessFault, 0)
  }

  /** An access that starts in RAM and runs past its end is undefined in the emulator; here
      such a load gives 0 and such a store does nothing. */
  function BusLoad(s: State, a: bv64, n: nat): (State, bv64)
  {
    if InRam(s.mem, ToNat(a)) then (s, Memory.Load(s.mem, ToNat(a), n))
    else (Raise(s, LoadAccessFault, 0), 0)
  }

  function BusStore(s: State, a: bv64, n: nat, v: bv64): State
  {
    if InRam(s.mem, ToNat(a)) then s.(mem := Memory.Store(s.mem, ToNat(a), n, v))
    else Raise(s, StoreAccessFault, 0)
  }

  function MmuLoad(s: State, va: bv64, n: nat): (State, bv64)
  {
    var (t, pa) := Translated(s, va, LoadAccess);
    if t.exc != NoException then (t, 0) else BusLoad(t, pa, n)
  }

  /** A fetch renames the fault of the bus. */
  function Renamed(s: State): State
  {
    if s.exc == LoadAccessFault then s.(exc := InstructionAccessFault) else s
  }

  function MmuFetch(s: State, va: bv64): (State, bv64)
  {
    var (t, pa) := Translated(s, va, FetchAccess);
    if t.exc != NoException then (t, 0)
    else
      var (u, v) := BusLoad(t, pa, 4);
      (Renamed(u), v)
  }

  function MmuStore(s: State, va: bv64, n: nat, v: bv64): State
  {
    var (t, pa) := Translated(s, va, StoreAccess);
    if t.exc != NoException then t else BusStore(t, pa, n, v)
  }

  /** The root that a value of satp selects: mode in bits 63 to 60, and the table's address
      truncated to the 32 bits the MMU keeps. */
  function RootOf(satp: bv64): (r: Root)
    ensures r.table % 8 == 0
  {
    hide ToNat, ReadBits;
    TableAligned(ToNat(ReadBits(satp, 43, 0)));
    Root(ReadBits(satp, 63, 60), (ToNat(ReadBits(satp, 43, 0)) * 4096) % 0x1_0000_0000)
  }

  lemma TableAligned(ppn: nat)
    ensures (ppn * 4096) % 0x1_0000_0000 % 8 == 0
  {}

  /** The MMU keeps 32 bits of the table's address, so it walks the table that satp names if and only
      if that table lies below 4 GiB. */
  lemma TableOfSatp(satp: bv64)
    ensures RootOf(satp).table == ToNat(ReadBits(satp, 43, 0)) * 4096 <==> ToNat(ReadBits(satp, 43, 0)) < 0x10_0000
  {
    hide ToNat, ReadBits;
  }

  function MmuUpdate(s: State): State
  {
    s.(root := RootOf(LoadCsr(s.csr, SATP)), tlb := FLUSHED)
  }

  // ---- What an access leaves alone ---------------------------------------------------------

  ghost predicate Sound(s: State)
  {
    InStep(s.cached, s.tlb, s.mem, s.root)
  }

  /** `s'` differs from `s` only in the cache, the exception and marks in leaf PTEs. */
  ghost predicate OnlyMarks(s: State, s': State)
  {
    && s' == s.(tlb := s'.tlb, mem := s'.mem, exc := s'.exc, excData := s'.excData)
    && OnlyMarked(s.mem, s'.mem, s.root)
    && Sound(s')
  }

  lemma TranslatedOnlyMarks(s: State, va: bv64, acc: PageTable.Access)
    requires Sound(s)
    ensures var (t, pa) := Translated(s, va, acc);
            && OnlyMarks(s, t)
            && (if t.exc == s.exc && t.excData == s.excData then true else t.exc == PageFault(acc) && t.excData == va)
  {
    hide InStep, ServeIn, OnlyMarked, CtxOf, OnlyMarks;
    var o := ServeIn(s.cached, s.tlb, s.mem, s.root, CtxOf(s), va, acc);
    ServedOnlyMarks(s, va, acc);
    MarksShape(s, o, va, acc);
  }

  lemma ServedOnlyMarks(s: State, va: bv64, acc: PageTable.Access)
    requires Sound(s)
    ensures var o := ServeIn(s.cached, s.tlb, s.mem, s.root, CtxOf(s), va, acc);
            !o.lost && InStep(s.cached, o.tlb, o.mem, s.root) && OnlyMarked(s.mem, o.mem, s.root)
  {
    hide Coherent, Serve, ServeDirect, Translate, OnlyMarked, PageAllowed, CtxOf, Bypass;
    var c := CtxOf(s);
    ServeInRefines(s.cached, s.tlb, s.mem, s.root, c, va, acc);
    if !s.cached || PageAllowed(s.tlb, va) || Bypass(s.root, c, acc) {
      TranslateOnlyMarks(s.mem, s.root, c, va, acc);
    } else {
      CoherentWhole(s.tlb, s.mem, s.root);
      PageZeroFaults(s.tlb, s.mem, s.root, c, va, acc);
      OnlyMarkedSelf(s.mem, s.root);
    }
  }

  lemma MarksShape(s: State, o: Served, va: bv64, acc: PageTable.Access)
    requires |o.tlb| == TLB_ENTRIES && !o.lost
    requires InStep(s.cached, o.tlb, o.mem, s.root) && OnlyMarked(s.mem, o.mem, s.root)
    requires o == ServeIn(s.cached, s.tlb, s.mem, s.root, CtxOf(s), va, acc)
    ensures var (t, pa) := Translated(s, va, acc);
            && OnlyMarks(s, t)
            && (if o.pa.Some? then t.exc == s.exc && t.excData == s.excData
                else t.exc == PageFault(acc) && t.excData == va)
  {
    hide InStep, ServeIn, OnlyMarked, CtxOf;
  }

  lemma OnlyMarksTwice(a: State, b: State, c: State)
    requires Sound(a) && OnlyMarks(a, b) && OnlyMarks(b, c)
    ensures OnlyMarks(a, c)
  {
    hide InStep, OnlyMarked;
    InStepParts(a.cached, a.tlb, a.mem, a.root);
    OnlyMarkedTwice(a.mem, b.mem, c.mem, a.root);
  }

  lemma LoadOnlyMarks(s: State, va: bv64, n: nat)
    requires Sound(s)
    ensures OnlyMarks(s, MmuLoad(s, va, n).0)
  {
    hide Translated, OnlyMarked, InStep, InRam;
    TranslatedOnlyMarks(s, va, LoadAccess);
  }

  lemma FetchOnlyMarks(s: State, va: bv64)
    requires Sound(s)
    ensures OnlyMarks(s, MmuFetch(s, va).0)
  {
    hide Translated, OnlyMarked, InStep, InRam;
    TranslatedOnlyMarks(s, va, FetchAccess);
  }

  /** A store that ends in an exception, its own or an earlier one, stores nothing. */
  lemma FaultingStoreOnlyMarks(s: State, va: bv64, n: nat, v: bv64)
    requires Sound(s) && MmuStore(s, va, n, v).exc != NoException
    ensures OnlyMarks(s, MmuStore(s, va, n, v))
  {
    hide Translated, OnlyMarked, InStep, InRam, Memory.Store;
    TranslatedOnlyMarks(s, va, StoreAccess);
  }

  lemma TranslatedKeepsException(s: State, va: bv64, acc: PageTable.Access)
    requires s.exc != NoException
    ensures Translated(s, va, acc).0.exc != NoException
  {
    hide ServeIn, CtxOf, Bypass;
    assert PageFault(acc) != NoException;
    hide PageFault;
  }

  /** An exception raised before an access is still there after it. */
  lemma LoadKeepsException(s: State, va: bv64, n: nat)
    requires s.exc != NoException
    ensures MmuLoad(s, va, n).0.exc != NoException
  {
    hide Translated, InRam;
    TranslatedKeepsException(s, va, LoadAccess);
  }

  lemma StoreKeepsException(s: State, va: bv64, n: nat, v: bv64)
    requires s.exc != NoException
    ensures MmuStore(s, va, n, v).exc != NoException
  {
    hide Translated, InRam;
    TranslatedKeepsException(s, va, StoreAccess);
  }
}
