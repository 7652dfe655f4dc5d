/** The atomic instructions (atomictype.cpp): an AMO that traps stores nothing, and
    store-conditionals are paired with load-reserveds. */
module Atomics {
  import opened Bits
  import opened Memory
  import opened Pte
  import opened PageTable
  import opened Tlb
  import opened Hart
  import opened Marking
  import opened AccessPath
  import opened Decoder
  import opened Isa

  function SetReg(s: State, rd: bv64, v: bv64): State
  {
    s.(regs := s.regs[Index(rd) := v])
  }

  /** A loaded value, or a register operand, as the handlers hold it: 32 bits signed or 64. */
  function Narrow(v: bv64, n: nat): bv64
  {
    if n == 4 then Sext32(v) else v
  }

  function Low(v: bv64, n: nat): bv64
  {
    if n == 4 then v & 0xffff_ffff else v
  }

  predicate IsAmo(f5: bv64)
  {
    f5 in [0x00, 0x01, 0x04, 0x08, 0x0c, 0x10, 0x14, 0x18, 0x1c]
  }

  const LR: bv64 := 2
  const SC: bv64 := 3

  /** The value an AMO stores, from the loaded word and the register. */
  function AmoValue(f5: bv64, n: nat, a: bv64, b: bv64): bv64
  {
    var x, y := Narrow(a, n), Narrow(b, n);
    match f5
    case 0x00 => Narrow(Add(x, y), n)
    case 0x01 => y
    case 0x04 => Xor(x, y)
    case 0x08 => Or(x, y)
    case 0x0c => And(x, y)
    case 0x10 => if BelowSigned(y, x) then y else x
    case 0x14 => if BelowSigned(x, y) then y else x
    case 0x18 => if Isa.Below(Low(b, n), Low(a, n)) then Low(b, n) else Low(a, n)
    case _ => if Isa.Below(Low(a, n), Low(b, n)) then Low(b, n) else Low(a, n)
  }

  function Amo(s: State, w: bv64, n: nat): State
  {
    var a := Reg(s.regs, Rs1(w));
    var (t, v) := MmuLoad(s, a, n);
    var u := MmuStore(t, a, n, AmoValue(Funct5(w), n, v, Reg(s.regs, Rs2(w))));
    SetReg(u, Rd(w), Narrow(v, n))
  }

  /** The reservation is taken even when the load faults. */
  function LoadReserved(s: State, w: bv64, n: nat): State
  {
    var a := Reg(s.regs, Rs1(w));
    var (t, v) := MmuLoad(s, a, n);
    SetReg(t, Rd(w), Narrow(v, n)).(reservations := s.reservations + {a})
  }

  /** The reservation is consumed before the store, which may fault. */
  function StoreConditional(s: State, w: bv64, n: nat): State
  {
    var a := Reg(s.regs, Rs1(w));
    if a in s.reservations then
      SetReg(MmuStore(s.(reservations := s.reservations - {a}), a, n, Low(Reg(s.regs, Rs2(w)), n)), Rd(w), 0)
    else SetReg(s, Rd(w), 1)
  }

  /** A misaligned address raises, under a different name for each width, and the operation
      goes on: its accesses see the exception and do nothing. */
  function Checked(s: State, w: bv64, n: nat): State
  {
    if Aligned(Reg(s.regs, Rs1(w)), n) then s
    else Raise(s, if n == 4 then InstructionAddressMisaligned else IllegalInstruction, w)
  }

  predicate Aligned(a: bv64, n: nat)
  {
    if n == 4 then a & 3 == 0 else a & 7 == 0
  }

  function AtomicOp(s: State, w: bv64, n: nat): State
  {
    var t := Checked(s, w, n);
    if Funct5(w) == LR then LoadReserved(t, w, n)
    else if Funct5(w) == SC then StoreConditional(t, w, n)
    else if IsAmo(Funct5(w)) then Amo(t, w, n)
    else Raise(t, IllegalInstruction, w)
  }

  function Atomic(s: State, w: bv64): State
  {
    if Funct3(w) == 2 then AtomicOp(s, w, 4)
    else if Funct3(w) == 3 then AtomicOp(s, w, 8)
    else Raise(s, IllegalInstruction, w)
  }

  // ---- An atomic that traps stores nothing ------------------------------------------------------

  /** From `s` to `s'` memory gained only A and D bits in leaf PTEs, and the cache is coherent. */
  ghost predicate NoDataStored(s: State, s': State)
  {
    s'.root == s.root && OnlyMarked(s.mem, s'.mem, s.root) && Sound(s')
  }

  lemma OnlyMarksStoresNothing(s: State, t: State, u: State)
    requires OnlyMarks(s, t) && u.root == t.root && u.mem == t.mem && u.tlb == t.tlb && u.cached == t.cached
    ensures NoDataStored(s, u)
  {
    hide OnlyMarked, InStep;
  }

  lemma RaisedStoresNothing(s: State, t: State)
    requires Sound(s) && t.root == s.root && t.mem == s.mem && t.tlb == s.tlb && t.cached == s.cached
    ensures NoDataStored(s, t)
  {
    hide OnlyMarked, InStep;
    OnlyMarkedSelf(s.mem, s.root);
  }

  lemma AmoTraps(s: State, w: bv64, n: nat)
    requires Sound(s) && Amo(s, w, n).exc != NoException
    ensures NoDataStored(s, Amo(s, w, n))
  {
    hide InStep, OnlyMarked, OnlyMarks, MmuLoad, MmuStore, Reg, Narrow, AmoValue, Sound, Funct5, Rd, Rs1, Rs2,
      NoDataStored;
    var a := Reg(s.regs, Rs1(w));
    var (t, v) := MmuLoad(s, a, n);
    var x := AmoValue(Funct5(w), n, v, Reg(s.regs, Rs2(w)));
    LoadOnlyMarks(s, a, n);
    MarksSound(s, t);
    FaultingStoreOnlyMarks(t, a, n, x);
    OnlyMarksTwice(s, t, MmuStore(t, a, n, x));
    OnlyMarksStoresNothing(s, MmuStore(t, a, n, x), Amo(s, w, n));
  }

  lemma MarksSound(s: State, t: State)
    requires OnlyMarks(s, t)
    ensures Sound(t) && t.root == s.root
  {
    hide OnlyMarked, InStep;
  }

  lemma ReservedTraps(s: State, w: bv64, n: nat)
    requires Sound(s)
    ensures NoDataStored(s, LoadReserved(s, w, n))
  {
    hide InStep, OnlyMarked, OnlyMarks, MmuLoad, Reg, Narrow, Sound, Rd, Rs1, NoDataStored;
    var a := Reg(s.regs, Rs1(w));
    LoadOnlyMarks(s, a, n);
    OnlyMarksStoresNothing(s, MmuLoad(s, a, n).0, LoadReserved(s, w, n));
  }

  lemma ConditionalTraps(s: State, w: bv64, n: nat)
    requires Sound(s) && StoreConditional(s, w, n).exc != NoException
    ensures NoDataStored(s, StoreConditional(s, w, n))
  {
    hide InStep, OnlyMarked, OnlyMarks, MmuStore, Reg, Low, Rd, Rs1, Rs2, NoDataStored;
    var a := Reg(s.regs, Rs1(w));
    if a in s.reservations {
      var t := s.(reservations := s.reservations - {a});
      FaultingStoreOnlyMarks(t, a, n, Low(Reg(s.regs, Rs2(w)), n));
      OnlyMarksStoresNothing(t, MmuStore(t, a, n, Low(Reg(s.regs, Rs2(w)), n)), StoreConditional(s, w, n));
      SameStores(t, s, StoreConditional(s, w, n));
    } else {
      RaisedStoresNothing(s, StoreConditional(s, w, n));
    }
  }

  lemma SameStores(s: State, t: State, u: State)
    requires NoDataStored(s, u) && t.mem == s.mem && t.root == s.root
    ensures NoDataStored(t, u)
  {
    hide OnlyMarked, InStep;
  }

  lemma CheckedKeeps(s: State, w: bv64, n: nat)
    requires Sound(s)
    ensures var t := Checked(s, w, n); Sound(t) && t.mem == s.mem && t.root == s.root && t.tlb == s.tlb
  {
    hide InStep, Aligned, Reg, Rs1;
  }

  lemma TrappingOpStoresNothing(s: State, w: bv64, n: nat)
    requires Sound(s) && AtomicOp(s, w, n).exc != NoException
    ensures NoDataStored(s, AtomicOp(s, w, n))
  {
    hide Amo, LoadReserved, StoreConditional, NoDataStored, Sound, Checked, Funct5, IsAmo;
    var t := Checked(s, w, n);
    CheckedKeeps(s, w, n);
    if Funct5(w) == LR {
      ReservedTraps(t, w, n);
    } else if Funct5(w) == SC {
      ConditionalTraps(t, w, n);
    } else if IsAmo(Funct5(w)) {
      AmoTraps(t, w, n);
    } else {
      RaisedStoresNothing(t, AtomicOp(s, w, n));
    }
    SameStores(t, s, AtomicOp(s, w, n));
  }

  /** An atomic instruction that ends in an exception, raised by its load, by its alignment
      check or by its store, has changed no data. */
  lemma TrappingAtomicStoresNothing(s: State, w: bv64)
    requires Sound(s) && Atomic(s, w).exc != NoException
    ensures NoDataStored(s, Atomic(s, w))
  {
    hide AtomicOp, NoDataStored, Sound, Funct3;
    if Funct3(w) == 2 {
      TrappingOpStoresNothing(s, w, 4);
    } else if Funct3(w) == 3 {
      TrappingOpStoresNothing(s, w, 8);
    } else {
      RaisedStoresNothing(s, Atomic(s, w));
    }
  }

  /** An AMO whose load faults, or that was misaligned, does end in an exception. */
  lemma AmoKeepsFault(s: State, w: bv64, n: nat)
    requires s.exc != NoException || MmuLoad(s, Reg(s.regs, Rs1(w)), n).0.exc != NoException
    ensures Amo(s, w, n).exc != NoException
  {
    hide MmuLoad, MmuStore, Reg, Narrow, AmoValue, Funct5, Rd, Rs1, Rs2;
    var a := Reg(s.regs, Rs1(w));
    var (t, v) := MmuLoad(s, a, n);
    if s.exc != NoException {
      LoadKeepsException(s, a, n);
    }
    StoreKeepsException(t, a, n, AmoValue(Funct5(w), n, v, Reg(s.regs, Rs2(w))));
  }

  // ---- Which exception an AMO ends in -----------------------------------------------------------------

  /** What may not be read may not be written. */
  lemma Unwritable(pte: bv64, priv: Priv, sum: bool, mxr: bool)
    requires !BadPte(pte) && !Permitted(pte, priv, sum, mxr, LoadAccess)
    ensures !Permitted(pte, priv, sum, mxr, StoreAccess)
  {
    hide HasV, HasR, HasW, HasX, HasU;
  }

  lemma UnreadablePage(m: Mem, root: Root, c: Ctx, va: bv64)
    requires Translate(m, root, c, va, LoadAccess).pa.None?
    ensures Translate(m, root, c, va, LoadAccess).mem == m
    ensures Translate(m, root, c, va, StoreAccess) == PageTable.Outcome(m, None)
  {
    hide Memory.Load, Memory.Store, WalkFrom, Permitted, Marked, WithOffset, PhysBase, BadPte, LeafPte, Misaligned;
    WalkLeaf(m, va, root.table, Levels(root.mode) - 1);
    match WalkOf(m, root, va)
    case Fault =>
    case Leaf(_, _, pte) => Unwritable(pte, EffectivePriv(c, LoadAccess), c.sum, c.mxr);
  }

  lemma EmptyNotAllowed(t: seq<Entry>, va: bv64)
    requires !PageAllowed(t, va)
    ensures !PageAllowed(FLUSHED, va)
  {
    hide HasV, PageOf;
    NothingValid();
    assert !Filled(FLUSHED[0]);
  }

  /** After a load that page-faults a store to the same address page-faults too. */
  lemma ServedTwice(cached: bool, t: seq<Entry>, m: Mem, root: Root, c: Ctx, va: bv64)
    requires InStep(cached, t, m, root) && ServeIn(cached, t, m, root, c, va, LoadAccess).pa.None?
    ensures var o := ServeIn(cached, t, m, root, c, va, LoadAccess);
            ServeIn(cached, o.tlb, o.mem, root, c, va, StoreAccess).pa.None?
  {
    hide Coherent, Serve, ServeDirect, Translate, PageAllowed, Find;
    var o, r := ServeIn(cached, t, m, root, c, va, LoadAccess), Translate(m, root, c, va, LoadAccess);
    ServeInRefines(cached, t, m, root, c, va, LoadAccess);
    if !cached || PageAllowed(t, va) || Bypass(root, c, LoadAccess) || r.pa.None? {
      UnreadablePage(m, root, c, va);
      ServeInRefines(cached, o.tlb, o.mem, root, c, va, StoreAccess);
    } else {
      CoherentWhole(t, m, root);
      PageZeroFaults(t, m, root, c, va, LoadAccess);
      EmptyNotAllowed(t, va);
      FlushedWhole();
      PageZeroFaults(FLUSHED, m, root, c, va, StoreAccess);
    }
  }

  /** A translation of a sound hart ends in its page fault or as it was. */
  lemma TranslatedOutcome(s: State, va: bv64, acc: PageTable.Access)
    requires Sound(s)
    ensures var o := ServeIn(s.cached, s.tlb, s.mem, s.root, CtxOf(s), va, acc);
            var t := Translated(s, va, acc).0;
            && t == s.(tlb := o.tlb, mem := o.mem, exc := t.exc, excData := t.excData)
            && t.exc == (if o.pa.None? then PageFault(acc) else s.exc)
            && Sound(t)
  {
    hide InStep, ServeIn, CtxOf, OnlyMarked;
    ServedOnlyMarks(s, va, acc);
  }

  /** It does not depend on the exception. */
  lemma TranslatedException(s: State, va: bv64, acc: PageTable.Access)
    requires Sound(s)
    ensures var (x, pa), y := Translated(s.(exc := NoException), va, acc), Translated(s, va, acc);
            && y.1 == pa && y.0.mem == x.mem
            && (x.exc == NoException || x.exc == PageFault(acc))
            && y.0.exc == if x.exc == NoException then s.exc else x.exc
  {
    hide InStep, ServeIn, CtxOf, OnlyMarked;
    SameContext(s, s.(exc := NoException));
    ServedOnlyMarks(s, va, acc);
  }

  lemma TranslatedTwice(s: State, va: bv64)
    requires Sound(s) && s.exc == NoException && Translated(s, va, LoadAccess).0.exc != NoException
    ensures var t := Translated(s, va, LoadAccess).0;
            t.exc == LoadPageFault && Translated(t.(exc := NoException), va, StoreAccess).0.exc == StorePageFault
  {
    hide InStep, ServeIn, CtxOf, Translated;
    TranslatedOutcome(s, va, LoadAccess);
    var t := Translated(s, va, LoadAccess).0.(exc := NoException);
    SameContext(s, t);
    ServedTwice(s.cached, s.tlb, s.mem, s.root, CtxOf(s), va);
    TranslatedOutcome(t, va, StoreAccess);
  }

  lemma LoadException(s: State, va: bv64, n: nat)
    requires Sound(s) && s.exc == NoException
    ensures var t := MmuLoad(s, va, n).0;
            && (t.exc == NoException || t.exc == LoadPageFault || t.exc == LoadAccessFault)
            && (t.exc == LoadPageFault ==>
                  Translated(t.(exc := NoException), va, StoreAccess).0.exc == StorePageFault)
  {
    hide Translated, InRam, Memory.Load, Sound;
    if Translated(s, va, LoadAccess).0.exc != NoException {
      TranslatedTwice(s, va);
    }
  }

  lemma StoreException(s: State, va: bv64, n: nat, v: bv64)
    requires Sound(s)
    ensures var (x, pa) := Translated(s.(exc := NoException), va, StoreAccess);
            MmuStore(s, va, n, v).exc ==
            if x.exc != NoException then StorePageFault else if s.exc != NoException then s.exc
            else if InRam(x.mem, ToNat(pa)) then NoException else StoreAccessFault
  {
    hide Translated, InRam, Memory.Store, Sound;
    TranslatedException(s, va, StoreAccess);
  }

  /** The exception an AMO ends in. A page that cannot be read or written gives a store page fault, as
      it should; but an address outside RAM gives the access fault of the load, which comes first. */
  lemma AmoException(s: State, w: bv64, n: nat)
    requires Sound(s) && s.exc == NoException
    ensures var a := Reg(s.regs, Rs1(w));
            var t := MmuLoad(s, a, n).0;
            var (x, pa) := Translated(t.(exc := NoException), a, StoreAccess);
            && (t.exc == NoException || t.exc == LoadPageFault || t.exc == LoadAccessFault)
            && Amo(s, w, n).exc ==
               (if x.exc != NoException then StorePageFault else if t.exc != NoException then t.exc
                else if InRam(x.mem, ToNat(pa)) then NoException else StoreAccessFault)
            && (t.exc == LoadPageFault ==> x.exc != NoException)
  {
    hide Translated, MmuLoad, MmuStore, OnlyMarks, Index, Reg, Narrow, AmoValue, Rd, Rs1, Rs2, Funct5, InRam, Sound;
    var a := Reg(s.regs, Rs1(w));
    LoadException(s, a, n);
    LoadOnlyMarks(s, a, n);
    MarksSound(s, MmuLoad(s, a, n).0);
    StoreException(MmuLoad(s, a, n).0, a, n, AmoValue(Funct5(w), n, MmuLoad(s, a, n).1, Reg(s.regs, Rs2(w))));
  }
}
