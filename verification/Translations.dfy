/** What a translation does to the hart, from the numbers in mstatus, satp and memory. */
module Translations {
  import opened Bits
  import opened Memory
  import opened Pte
  import opened PageTable
  import opened Tlb
  import opened CsrFile
  import opened Hart
  import opened Traps
  import opened PageArithmetic
  import opened Numbers
  import opened AccessPath
  import opened System
  import opened LittleEndian
  import opened WalkNumbers

  /** The privilege that an access is checked at: under bit 17 of mstatus loads and stores are checked at
      the mode in its bits 12 and 11, fetches never. */
  function CheckedAt(mode: Priv, mstatus: nat, acc: PageTable.Access): Priv
  {
    if acc.FetchAccess? || !Bit(mstatus, 17) then mode
    else if Bit(mstatus, 12) then if Bit(mstatus, 11) then Machine else Invalid
    else if Bit(mstatus, 11) then Supervisor
    else User
  }

  /** The page fault of a kind of access, with the address as its data. */
  function Faulted(s: State, tlb: Cache, va: bv64, acc: PageTable.Access): State
  {
    var t := s.(tlb := tlb, excData := va);
    match acc
    case LoadAccess => t.(exc := LoadPageFault)
    case StoreAccess => t.(exc := StorePageFault)
    case FetchAccess => t.(exc := InstructionPageFault)
  }

  /** The translation found a page and was allowed: the leaf is marked, and the physical address is the
      page of the leaf and the low bits of the address. */
  ghost predicate Resolves(m: Mem, m': Mem, va: bv64, acc: PageTable.Access, pa: bv64, level: nat, at: nat, pte: nat)
  {
    && ToNat(pa) == PageNumber(pte) * 4096 + ToNat(va) % Pow2(12 + 9 * level)
    && AllInRam(m, at, 8) && Rewritten(m, m', at, 8, MarkedNumber(pte, acc))
  }

  /** The whole of a translation: mode 0 in bits 63 to 60 of satp and machine mode use the address as it is;
      otherwise the walk decides, with SUM in bit 18 and MXR in bit 19 of mstatus. */
  ghost predicate TranslationDone(s: State, va: bv64, acc: PageTable.Access, t: State, pa: bv64)
  {
    var mstatus, satp := ToNat(s.csr[0x300]), ToNat(s.csr[0x180]);
    var priv := CheckedAt(s.mode, mstatus, acc);
    if satp / Pow2(60) == 0 || priv == Machine then t == s && pa == va
    else match Resolved(s.mem, satp, ToNat(va))
      case NoPage => t == Faulted(s, t.tlb, va, acc)
      case Page(level, at, pte) =>
        if Granted(pte, priv, Bit(mstatus, 18), Bit(mstatus, 19), acc) then
          t == s.(tlb := t.tlb, mem := t.mem) && Resolves(s.mem, t.mem, va, acc, pa, level, at, pte)
        else t == Faulted(s, t.tlb, va, acc)
  }

  // ---- The bits of mstatus ---------------------------------------------------------------------------------

  lemma StatusIndices()
    ensures ToNat(11) == 11 && ToNat(12) == 12 && ToNat(17) == 17 && ToNat(18) == 18 && ToNat(19) == 19
  {}

  lemma StatusBit(r: Regs, i: BitIndex)
    requires i != 33
    ensures CsrBit(r, MSTATUS, i) <==> Bit(ToNat(r[0x300]), ToNat(i))
  {
    hide ReadBit, WriteBit, ToNat, Pow2;
    BitKept(r[0x300], 33, true, i);
    BitMeans(r[0x300], i);
  }

  lemma MppMeans(r: Regs)
    ensures MppMode(r) == if Bit(ToNat(r[0x300]), 12) then if Bit(ToNat(r[0x300]), 11) then Machine else Invalid
                          else if Bit(ToNat(r[0x300]), 11) then Supervisor else User
  {
    hide ReadBit, ReadBits, ToNat, Pow2, CsrBit, MppMode;
    ReadFields(r);
    FieldOfBits(r[0x300]);
    StatusIndices();
    BitMeans(r[0x300], 11);
    BitMeans(r[0x300], 12);
  }

  lemma ContextMeans(s: State, acc: PageTable.Access)
    ensures var c, mstatus := CtxOf(s), ToNat(s.csr[0x300]);
            && EffectivePriv(c, acc) == CheckedAt(s.mode, mstatus, acc)
            && c.sum == Bit(mstatus, 18) && c.mxr == Bit(mstatus, 19)
  {
    hide ToNat, Bit, CsrBit, MppMode;
    StatusIndices();
    StatusBit(s.csr, 17);
    StatusBit(s.csr, 18);
    StatusBit(s.csr, 19);
    MppMeans(s.csr);
  }

  // ---- The translation by the tables -----------------------------------------------------------------------

  lemma LeafInRam(m: Mem, root: Root, va: bv64)
    requires WalkOf(m, root, va).Leaf?
    ensures var w := WalkOf(m, root, va); AllInRam(m, w.addr, 8) && !Misaligned(w.pte, w.level)
  {
    hide Memory.Load, HasV, HasR, HasW, HasX, WalkFrom, Misaligned, LeafPte;
    var w := WalkOf(m, root, va);
    WalkLeaf(m, va, root.table, Levels(root.mode) - 1);
    ValidInRam(m, w.addr);
  }

  lemma LeafResolves(m: Mem, root: Root, va: bv64, acc: PageTable.Access)
    requires WalkOf(m, root, va).Leaf?
    ensures var w := WalkOf(m, root, va);
            Resolves(m, Memory.Store(m, w.addr, 8, Marked(w.pte, acc)), va, acc,
                     WithOffset(PhysBase(w.pte, va, w.level), va), w.level, w.addr, ToNat(w.pte))
  {
    hide ToNat, WalkOf, Marked, WithOffset, PhysBase, PageNumber, Pow2, Memory.Store, Rewritten, Misaligned, AllInRam,
      MarkedNumber;
    var w := WalkOf(m, root, va);
    LeafInRam(m, root, va);
    PhysicalAddress(w.pte, va, w.level);
    PpnMeans(w.pte);
    LittleEndian.StoreMeans(m, w.addr, 8, Marked(w.pte, acc));
    MarkedMeans(w.pte, acc);
  }

  lemma TranslateMeans(m: Mem, satp: bv64, c: Ctx, va: bv64, acc: PageTable.Access)
    ensures var o, priv := Translate(m, RootOf(satp), c, va, acc), EffectivePriv(c, acc);
            if ToNat(satp) / Pow2(60) == 0 || priv == Machine then o == PageTable.Outcome(m, Some(va))
            else match Resolved(m, ToNat(satp), ToNat(va))
              case NoPage => o == PageTable.Outcome(m, None)
              case Page(level, at, pte) =>
                if Granted(pte, priv, c.sum, c.mxr, acc) then
                  o.pa.Some? && Resolves(m, o.mem, va, acc, o.pa.value, level, at, pte)
                else o == PageTable.Outcome(m, None)
  {
    hide ToNat, Pow2, RootOf, WalkOf, Resolved, Permitted, Granted, Marked, WithOffset, PhysBase, Memory.Store,
      Resolves, EffectivePriv;
    RootMeans(satp);
    ModeMeans(RootOf(satp).mode);
    WalkOfMeans(m, satp, va);
    match WalkOf(m, RootOf(satp), va)
    case Fault =>
    case Leaf(_, _, pte) =>
      LeafResolves(m, RootOf(satp), va, acc);
      GrantedMeans(pte, EffectivePriv(c, acc), c.sum, c.mxr, acc);
  }

  // ---- The translation of the hart --------------------------------------------------------------------------

  lemma SatpIs(r: Regs)
    ensures LoadCsr(r, SATP) == r[0x180]
  {}

  /** The page is not page 0 with a slot of the cache empty, or there is no cache. */
  predicate Reliable(s: State, va: bv64)
  {
    !s.cached || PageAllowed(s.tlb, va)
  }

  /** A translation gives what the table translation gives. */
  lemma TranslatedIs(s: State, va: bv64, acc: PageTable.Access)
    requires Sound(s) && Reliable(s, va)
    ensures var (t, pa), o := Translated(s, va, acc), Translate(s.mem, s.root, CtxOf(s), va, acc);
            if o.pa.Some? then t == s.(tlb := t.tlb, mem := o.mem) && pa == o.pa.value
            else t == Faulted(s, t.tlb, va, acc).(mem := o.mem)
  {
    hide InStep, ServeIn, CtxOf, Translate, PageAllowed, Bypass, Translated;
    ServeInRefines(s.cached, s.tlb, s.mem, s.root, CtxOf(s), va, acc);
    ServedIs(s, ServeIn(s.cached, s.tlb, s.mem, s.root, CtxOf(s), va, acc), va, acc);
  }

  lemma FaultedIs(s: State, tlb: Cache, va: bv64, acc: PageTable.Access)
    ensures Faulted(s, tlb, va, acc) == Raise(s.(tlb := tlb), PageFault(acc), va)
  {}

  lemma ServedIs(s: State, o: Served, va: bv64, acc: PageTable.Access)
    requires |o.tlb| == TLB_ENTRIES && !o.lost && o == ServeIn(s.cached, s.tlb, s.mem, s.root, CtxOf(s), va, acc)
    ensures var (t, pa) := Translated(s, va, acc);
            if o.pa.Some? then t == s.(tlb := t.tlb, mem := o.mem) && pa == o.pa.value
            else t == Faulted(s, t.tlb, va, acc).(mem := o.mem)
  {
    hide ServeIn, CtxOf, Faulted, PageFault;
    FaultedIs(s, o.tlb, va, acc);
  }

  /** A translation does what mstatus, satp and the tables in memory say, in either build. */
  lemma TranslationMeans(s: State, va: bv64, acc: PageTable.Access)
    requires Sound(s) && Mirrors(s) && Reliable(s, va)
    ensures var (t, pa) := Translated(s, va, acc); TranslationDone(s, va, acc, t, pa)
  {
    hide ToNat, Pow2, Sound, RootOf, CtxOf, Translated, Translate, Resolved, Granted, Resolves, Bit, CheckedAt,
      EffectivePriv, Reliable, LoadCsr;
    SatpIs(s.csr);
    TranslatedIs(s, va, acc);
    ContextMeans(s, acc);
    TranslateMeans(s.mem, s.csr[0x180], CtxOf(s), va, acc);
    if ToNat(s.csr[0x180]) / Pow2(60) == 0 || CheckedAt(s.mode, ToNat(s.csr[0x300]), acc) == Machine {
      BypassIs(s, va, acc);
    }
  }

  lemma BypassIs(s: State, va: bv64, acc: PageTable.Access)
    requires s.root == RootOf(s.csr[0x180])
    requires ToNat(s.csr[0x180]) / Pow2(60) == 0 || CheckedAt(s.mode, ToNat(s.csr[0x300]), acc) == Machine
    ensures Translated(s, va, acc) == (s, va)
  {
    hide ToNat, Pow2, RootOf, CtxOf, Translated, CheckedAt, EffectivePriv;
    RootMeans(s.csr[0x180]);
    ModeMeans(RootOf(s.csr[0x180]).mode);
    ContextMeans(s, acc);
    PassedThrough(s, va, acc);
  }

  /** Page 0 looked up while a slot of the cache is empty faults, whatever the tables say. */
  lemma PageZeroTranslation(s: State, va: bv64, acc: PageTable.Access)
    requires Sound(s) && Mirrors(s) && !Reliable(s, va)
    ensures var t := Translated(s, va, acc).0;
            if ToNat(s.csr[0x180]) / Pow2(60) == 0 || CheckedAt(s.mode, ToNat(s.csr[0x300]), acc) == Machine then t == s
            else t == Faulted(s, FLUSHED, va, acc)
  {
    hide ToNat, Pow2, RootOf, CtxOf, CheckedAt, EffectivePriv, LoadCsr, PageAllowed, Coherent, Translated;
    SatpIs(s.csr);
    RootMeans(s.csr[0x180]);
    ModeMeans(RootOf(s.csr[0x180]).mode);
    ContextMeans(s, acc);
    if Bypass(s.root, CtxOf(s), acc) {
      PassedThrough(s, va, acc);
    } else {
      PageZeroServed(s, va, acc);
    }
  }

  lemma PageZeroServed(s: State, va: bv64, acc: PageTable.Access)
    requires Sound(s) && !Reliable(s, va) && !Bypass(s.root, CtxOf(s), acc)
    ensures Translated(s, va, acc).0 == Faulted(s, FLUSHED, va, acc)
  {
    hide CtxOf, PageAllowed, Coherent, Bypass, Serve;
    CoherentWhole(s.tlb, s.mem, s.root);
    PageZeroFaults(s.tlb, s.mem, s.root, CtxOf(s), va, acc);
  }

  /** A translation without an exception is one that the tables allow. */
  lemma Succeeds(s: State, va: bv64, acc: PageTable.Access)
    requires Sound(s) && s.exc == NoException && Translated(s, va, acc).0.exc == NoException
    ensures var (t, pa), o := Translated(s, va, acc), Translate(s.mem, s.root, CtxOf(s), va, acc);
            t == s.(tlb := t.tlb, mem := o.mem) && o.pa == Some(pa)
  {
    hide Sound, CtxOf, Translate, PageAllowed, Bypass, Translated;
    if Bypass(s.root, CtxOf(s), acc) {
      PassedThrough(s, va, acc);
      BypassTranslates(s.mem, s.root, CtxOf(s), va, acc);
    } else if Reliable(s, va) {
      TranslatedIs(s, va, acc);
    } else {
      PageZeroServed(s, va, acc);
    }
  }

  lemma BypassTranslates(m: Mem, root: Root, c: Ctx, va: bv64, acc: PageTable.Access)
    requires Bypass(root, c, acc)
    ensures Translate(m, root, c, va, acc) == PageTable.Outcome(m, Some(va))
  {
    hide Bypass;
  }

  // ---- What the bits of mstatus decide -----------------------------------------------------------------------

  /** The tables map the address by a leaf with these bits. */
  ghost predicate MapsTo(s: State, va: bv64, pte: nat)
  {
    && ToNat(s.csr[0x180]) / Pow2(60) != 0
    && Resolved(s.mem, ToNat(s.csr[0x180]), ToNat(va)).Page?
    && Resolved(s.mem, ToNat(s.csr[0x180]), ToNat(va)).pte == pte
  }

  /** A supervisor's load from a readable user page faults exactly when SUM, bit 18, is clear. */
  lemma SumDecides(s: State, va: bv64, pte: nat)
    requires Sound(s) && Mirrors(s) && Reliable(s, va) && s.exc == NoException && MapsTo(s, va, pte)
    requires CheckedAt(s.mode, ToNat(s.csr[0x300]), LoadAccess) == Supervisor && Bit(pte, 4) && Bit(pte, 1)
    ensures Translated(s, va, LoadAccess).0.exc ==
            if Bit(ToNat(s.csr[0x300]), 18) then NoException else LoadPageFault
  {
    hide ToNat, Pow2, Sound, Mirrors, Reliable, Resolved, Resolves, Bit, CheckedAt, Translated;
    TranslationMeans(s, va, LoadAccess);
  }

  /** A supervisor's load from an execute-only supervisor page faults exactly when MXR, bit 19, is clear. */
  lemma MxrDecides(s: State, va: bv64, pte: nat)
    requires Sound(s) && Mirrors(s) && Reliable(s, va) && s.exc == NoException && MapsTo(s, va, pte)
    requires CheckedAt(s.mode, ToNat(s.csr[0x300]), LoadAccess) == Supervisor
    requires !Bit(pte, 4) && !Bit(pte, 1) && Bit(pte, 3)
    ensures Translated(s, va, LoadAccess).0.exc ==
            if Bit(ToNat(s.csr[0x300]), 19) then NoException else LoadPageFault
  {
    hide ToNat, Pow2, Sound, Mirrors, Reliable, Resolved, Resolves, Bit, CheckedAt, Translated;
    TranslationMeans(s, va, LoadAccess);
  }

  /** In machine mode with bit 11 of mstatus clear, so that MPP is user mode or reserved, a load of a
      supervisor page faults exactly when MPRV, bit 17, is set; a fetch uses the address as it is. */
  lemma MprvDecides(s: State, va: bv64, pte: nat)
    requires Sound(s) && Mirrors(s) && Reliable(s, va) && s.exc == NoException && MapsTo(s, va, pte)
    requires s.mode == Machine && !Bit(pte, 4) && Bit(pte, 1) && !Bit(ToNat(s.csr[0x300]), 11)
    ensures Translated(s, va, LoadAccess).0.exc ==
            if Bit(ToNat(s.csr[0x300]), 17) then LoadPageFault else NoException
    ensures Translated(s, va, FetchAccess) == (s, va)
  {
    hide ToNat, Pow2, Sound, Mirrors, Reliable, Resolved, Resolves, Bit, Translated;
    TranslationMeans(s, va, LoadAccess);
    TranslationMeans(s, va, FetchAccess);
  }
}
