/** What the atomic instructions leave in memory and in rd, in terms of the numbers in memory and in the
    registers (chapter 8 of the Unprivileged ISA). */
module AtomicResults {
  import opened Bits
  import opened Memory
  import opened Pte
  import opened PageTable
  import opened Tlb
  import opened Hart
  import opened MulDiv
  import opened Decoder
  import opened Isa
  import opened Ordering
  import opened PageArithmetic
  import opened Marking
  import opened Numbers
  import opened IntegerOps
  import opened AccessPath
  import opened Atomics
  import opened System
  import opened Machine
  import opened LittleEndian
  import opened Execution
  import opened Translations

  /** amoadd, amoswap, amoxor, amoor, amoand, amomin, amomax, amominu and amomaxu, by funct5, on words of
      `size` values: the number in memory and the number in rs2. */
  function AmoNumber(f5: bv64, size: nat, old_: int, operand: int): int
    requires size > 0 && size % 2 == 0
  {
    var x, y, u, v := Wrap(old_, size), Wrap(operand, size), old_ % size, operand % size;
    match f5
    case 0x00 => x + y
    case 0x01 => y
    case 0x04 => Bitwise(Exclusive, u, v)
    case 0x08 => Bitwise(Inclusive, u, v)
    case 0x0c => Bitwise(Both, u, v)
    case 0x10 => if x < y then x else y
    case 0x14 => if x < y then y else x
    case 0x18 => if u < v then u else v
    case _ => if u < v then v else u
  }

  // ---- The value -------------------------------------------------------------------------------------------

  lemma HalfLow(v: bv64)
    ensures And(v, Ones(32)) == Low(v, 4) && ToNat(32) == 32
  {}

  lemma LowMeans(v: bv64)
    ensures ToNat(Low(v, 4)) == Signed(v) % TWO32 && ToNat(Low(v, 8)) == Signed(v) % TWO64
  {
    hide ToNat, Signed, And, Ones, Pow2;
    HalfLow(v);
    LowBits(v, 32);
    WordPowers();
    LowHalves(v);
    SignedMod(v);
  }

  lemma NarrowMeans(v: bv64)
    ensures Signed(Narrow(v, 4)) == Wrap(Signed(v), TWO32) && Signed(Narrow(v, 8)) == Wrap(Signed(v), TWO64)
  {
    hide ToNat, Signed, Sext32;
    SextIs(v);
    Ranges(v);
    WrapSmall(Signed(v), TWO64);
  }

  lemma XorUnder(a: bv64, b: bv64, j: BitIndex)
    requires ReadBit(b, j)
    ensures ReadBit(a ^ b, j) == !ReadBit(a, j)
  {}

  lemma XorBeside(a: bv64, b: bv64, j: BitIndex)
    requires !ReadBit(b, j)
    ensures ReadBit(a ^ b, j) == ReadBit(a, j)
  {}

  lemma XorAt(a: bv64, b: bv64, j: BitIndex)
    ensures ReadBit(Xor(a, b), j) == (ReadBit(a, j) != ReadBit(b, j))
  {
    hide ReadBit;
    if ReadBit(b, j) {
      XorUnder(a, b, j);
    } else {
      XorBeside(a, b, j);
    }
  }

  lemma CombinedAt(op: BitOp, a: bv64, b: bv64, j: BitIndex)
    ensures ReadBit(Combined(op, a, b), j) ==
            match op
            case Exclusive => ReadBit(a, j) != ReadBit(b, j)
            case Inclusive => ReadBit(a, j) || ReadBit(b, j)
            case Both => ReadBit(a, j) && ReadBit(b, j)
  {
    hide ReadBit, Xor, Or, And;
    XorAt(a, b, j);
    OrAt(a, b, j);
    MaskedAt(a, b, j);
  }

  /** Bitwise operations on the low halves. */
  lemma LowCombined(op: BitOp, a: bv64, b: bv64)
    ensures Low(Combined(op, a, b), 4) == Combined(op, Low(a, 4), Low(b, 4))
  {
    hide ReadBit, Low, Combined, And, Ones;
    var m := Ones(32);
    HalfLow(a);
    HalfLow(b);
    HalfLow(Combined(op, a, b));
    forall j: BitIndex
      ensures ReadBit(And(Combined(op, a, b), m), j) == ReadBit(Combined(op, And(a, m), And(b, m)), j)
    {
      CombinedAt(op, a, b, j);
      CombinedAt(op, And(a, m), And(b, m), j);
      MaskedAt(a, m, j);
      MaskedAt(b, m, j);
      MaskedAt(Combined(op, a, b), m, j);
    }
    BitsDecide(And(Combined(op, a, b), m), Combined(op, And(a, m), And(b, m)));
  }

  lemma LowOfSext(v: bv64)
    ensures Low(Sext32(v), 4) == Low(v, 4)
  {
    hide ToNat, Signed, Low, Sext32, Wrap, Isa.Below;
    LowMeans(Sext32(v));
    LowMeans(v);
    SextIs(v);
    WrapMod32(Signed(v));
    BelowMeans(Low(Sext32(v), 4), Low(v, 4));
  }

  lemma WordCombined(op: BitOp, a: bv64, b: bv64)
    ensures ToNat(Low(Combined(op, Sext32(a), Sext32(b)), 4)) == Bitwise(op, Signed(a) % TWO32, Signed(b) % TWO32)
  {
    hide ToNat, Signed, Low, Combined, Sext32, Bitwise;
    LowCombined(op, Sext32(a), Sext32(b));
    LowOfSext(a);
    LowOfSext(b);
    BitwiseMeans(op, Low(a, 4), Low(b, 4));
    LowMeans(a);
    LowMeans(b);
  }

  lemma BitwiseWord(op: BitOp, a: bv64, b: bv64)
    ensures ToNat(Combined(op, a, b)) == Bitwise(op, Signed(a) % TWO64, Signed(b) % TWO64)
  {
    hide ToNat, Signed, Combined, Bitwise;
    BitwiseMeans(op, a, b);
    SignedMod(a);
    SignedMod(b);
  }

  /** The low half of a word with a given number. */
  lemma LowOfWord(v: bv64, x: int)
    requires v == Word(x)
    ensures ToNat(v) % TWO32 == x % TWO32
  {
    hide ToNat, Word;
    ModTwice(x);
    SmallerModulus(ToNat(v), x);
  }

  lemma LowIsRemainder(v: bv64)
    ensures ToNat(Low(v, 4)) == ToNat(v) % TWO32 && ToNat(v) % TWO64 == ToNat(v)
  {
    hide ToNat, Signed, Low;
    LowMeans(v);
    LowHalves(v);
    Ranges(v);
    ModUnique(ToNat(v), ToNat(v), 0, TWO64);
  }

  lemma ModOnce(x: int)
    ensures x % TWO32 % TWO32 == x % TWO32
  {}

  lemma AmoWordArithmetic(f5: bv64, a: bv64, b: bv64)
    requires f5 == 0x00 || f5 == 0x01 || f5 == 0x10 || f5 == 0x14
    ensures ToNat(AmoValue(f5, 4, a, b)) % TWO32 == AmoNumber(f5, TWO32, Signed(a), Signed(b)) % TWO32
  {
    hide ToNat, Signed, Word, Sext32, Add, Sub, BelowSigned, Isa.Below, Wrap;
    var x, y := Sext32(a), Sext32(b);
    NarrowMeans(a);
    NarrowMeans(b);
    Sum(x, y);
    SextWord(Add(x, y), Signed(x) + Signed(y));
    LowOfWord(Sext32(Add(x, y)), Wrap(Signed(x) + Signed(y), TWO32));
    WrapMod32(Signed(x) + Signed(y));
    SignedWord(x);
    SignedWord(y);
    LowOfWord(x, Signed(x));
    LowOfWord(y, Signed(y));
    BelowSignedMeans(x, y);
    BelowSignedMeans(y, x);
  }

  lemma WrapMod32(x: int)
    ensures Wrap(x, TWO32) % TWO32 == x % TWO32
  {
    var u := x % TWO32;
    if u >= TWO32 / 2 {
      ModUnique(u - TWO32, u, -1, TWO32);
    }
  }

  lemma AmoWordBits(f5: bv64, a: bv64, b: bv64)
    requires f5 == 0x04 || f5 == 0x08 || f5 == 0x0c
    ensures ToNat(AmoValue(f5, 4, a, b)) % TWO32 == AmoNumber(f5, TWO32, Signed(a), Signed(b)) % TWO32
  {
    hide ToNat, Signed, Sext32, Xor, Or, And, Wrap, Bitwise, Low;
    var op := if f5 == 0x04 then Exclusive else if f5 == 0x08 then Inclusive else Both;
    WordCombined(op, a, b);
    LowIsRemainder(Combined(op, Sext32(a), Sext32(b)));
    ModOnce(ToNat(Combined(op, Sext32(a), Sext32(b))));
  }

  lemma AmoWordUnsigned(f5: bv64, a: bv64, b: bv64)
    requires f5 == 0x18 || f5 == 0x1c
    ensures ToNat(AmoValue(f5, 4, a, b)) % TWO32 == AmoNumber(f5, TWO32, Signed(a), Signed(b)) % TWO32
  {
    hide ToNat, Signed, Low, Wrap, Isa.Below, BelowSigned, Sext32;
    LowMeans(a);
    LowMeans(b);
    BelowMeans(Low(a, 4), Low(b, 4));
    BelowMeans(Low(b, 4), Low(a, 4));
  }

  lemma AmoDouble(f5: bv64, a: bv64, b: bv64)
    requires f5 == 0x00 || f5 == 0x01 || f5 == 0x10 || f5 == 0x14 || f5 == 0x18 || f5 == 0x1c
    ensures ToNat(AmoValue(f5, 8, a, b)) % TWO64 == AmoNumber(f5, TWO64, Signed(a), Signed(b)) % TWO64
  {
    hide ToNat, Signed, Word, Add, Sub, Wrap, Isa.Below, BelowSigned;
    NarrowMeans(a);
    NarrowMeans(b);
    Sum(a, b);
    SignedMod(a);
    SignedMod(b);
    ModTwice(Signed(a));
    ModTwice(Signed(b));
    ModTwice(Signed(a) + Signed(b));
    BelowSignedMeans(a, b);
    BelowSignedMeans(b, a);
    BelowMeans(a, b);
    BelowMeans(b, a);
  }

  lemma AmoDoubleBits(f5: bv64, a: bv64, b: bv64)
    requires f5 == 0x04 || f5 == 0x08 || f5 == 0x0c
    ensures ToNat(AmoValue(f5, 8, a, b)) % TWO64 == AmoNumber(f5, TWO64, Signed(a), Signed(b)) % TWO64
  {
    hide ToNat, Signed, Xor, Or, And, Wrap, Bitwise;
    BitwiseWord(if f5 == 0x04 then Exclusive else if f5 == 0x08 then Inclusive else Both, a, b);
  }

  /** What an AMO stores, by its funct5, in both widths. */
  lemma AmoValueMeans(f5: bv64, n: nat, a: bv64, b: bv64)
    requires f5 in [0x00, 0x01, 0x04, 0x08, 0x0c, 0x10, 0x14, 0x18, 0x1c] && (n == 4 || n == 8)
    ensures var size := if n == 4 then TWO32 else TWO64;
            ToNat(AmoValue(f5, n, a, b)) % size == AmoNumber(f5, size, Signed(a), Signed(b)) % size
  {
    hide ToNat, Signed, AmoValue, AmoNumber;
    if f5 == 0x04 || f5 == 0x08 || f5 == 0x0c {
      AmoWordBits(f5, a, b);
      AmoDoubleBits(f5, a, b);
    } else {
      AmoDouble(f5, a, b);
      if f5 == 0x18 || f5 == 0x1c {
        AmoWordUnsigned(f5, a, b);
      } else {
        AmoWordArithmetic(f5, a, b);
      }
    }
  }

  // ---- The address -----------------------------------------------------------------------------------------

  lemma Granules(l: nat)
    ensures exists k: nat :: Pow2(12 + 9 * l) == 8 * k
  {
    Pow2Sum(3, 9 + 9 * l);
    assert Pow2(3) == 8;
    assert Pow2(12 + 9 * l) == 8 * Pow2(9 + 9 * l);
  }

  lemma SameGranule(va: nat, ppn: nat, p: nat, k: nat)
    requires p == 8 * k && k > 0
    ensures (ppn * 4096 + va % p) % 8 == va % 8
  {
    Division(va, p);
    assert va == va / p * k * 8 + va % p;
    Shifted(va, va % p, va / p * k, 8);
    Shifted(ppn * 4096 + va % p, va % p, ppn * 512, 8);
  }

  /** A physical address is aligned as the virtual one. */
  lemma SameAlignment(m: Mem, root: Root, c: Ctx, va: bv64, acc: PageTable.Access)
    requires Translate(m, root, c, va, acc).pa.Some?
    ensures ToNat(Translate(m, root, c, va, acc).pa.value) % 8 == ToNat(va) % 8
  {
    hide ToNat, WalkOf, Marked, WithOffset, PhysBase, Memory.Store, Misaligned, Permitted, Pow2, Bypass;
    if !Bypass(root, c, acc) {
      var w := WalkOf(m, root, va);
      LeafInRam(m, root, va);
      PhysicalAddress(w.pte, va, w.level);
      Granules(w.level);
      var k: nat :| Pow2(12 + 9 * w.level) == 8 * k;
      SameGranule(ToNat(va), ToNat(Ppn(w.pte)), Pow2(12 + 9 * w.level), k);
    }
  }

  lemma AlignedIs(v: bv64)
    ensures v & 3 == And(v, Ones(2)) && v & 7 == And(v, Ones(3)) && ToNat(2) == 2 && ToNat(3) == 3 && ToNat(0) == 0
  {}

  lemma AlignedMeans(v: bv64, n: nat)
    requires n == 4 || n == 8
    ensures Aligned(v, n) <==> ToNat(v) % n == 0
  {
    hide ToNat, And, Ones, Isa.Below;
    AlignedIs(v);
    LowBits(v, 2);
    LowBits(v, 3);
    assert Pow2(2) == 4 && Pow2(3) == 8;
    BelowMeans(And(v, Ones(2)), 0);
    BelowMeans(And(v, Ones(3)), 0);
  }

  lemma RoomLeft(a: nat, end: nat, n: nat)
    requires n > 0 && a % n == 0 && end % n == 0 && a < end
    ensures a + n <= end
  {
    Division(a, n);
    Division(end, n);
    if end / n <= a / n {
      Product(a / n - end / n, n);
    } else {
      Product(end / n - a / n - 1, n);
    }
  }

  lemma WholeAccess(m: Mem, a: nat, n: nat)
    requires ValidMem(m) && InRam(m, a) && (n == 4 || n == 8) && a % n == 0
    ensures AllInRam(m, a, n)
  {
    var end := m.base + |m.data|;
    EndAligned(m.base, |m.data|);
    FourDivides(end, 0);
    RoomLeft(a, end, n);
  }

  lemma EndAligned(a: nat, b: nat)
    requires a % 8 == 0 && b % 8 == 0
    ensures (a + b) % 8 == 0
  {}

  lemma FourDivides(a: nat, b: nat)
    requires a % 8 == b % 8
    ensures a % 4 == b % 4
  {
    Division(a, 8);
    Division(b, 8);
    Shifted(a, b, 2 * (a / 8 - b / 8), 4);
  }

  /** An aligned access without an exception that begins in RAM lies in RAM. */
  lemma AlignedAccess(s: State, va: bv64, acc: PageTable.Access, n: nat)
    requires Sound(s) && s.exc == NoException && Translated(s, va, acc).0.exc == NoException
    requires (n == 4 || n == 8) && Aligned(va, n)
    ensures var (t, pa) := Translated(s, va, acc);
            Sound(t) && (InRam(t.mem, ToNat(pa)) ==> AllInRam(t.mem, ToNat(pa), n))
  {
    hide ToNat, Translated, Translate, CtxOf, Aligned, InRam, AllInRam, OnlyMarked, Coherent;
    var (t, pa) := Translated(s, va, acc);
    Succeeds(s, va, acc);
    SameAlignment(s.mem, s.root, CtxOf(s), va, acc);
    AlignedMeans(va, n);
    FourDivides(ToNat(pa), ToNat(va));
    TranslatedOnlyMarks(s, va, acc);
    if InRam(t.mem, ToNat(pa)) {
      WholeAccess(t.mem, ToNat(pa), n);
    }
  }

  lemma TablePlaces(m: Mem, root: Root, c: Ctx, va: bv64)
    requires root.table % 8 == 0
    requires var o := Translate(m, root, c, va, LoadAccess);
             o.pa.Some? && Translate(o.mem, root, c, va, StoreAccess).pa.Some?
    ensures var o := Translate(m, root, c, va, LoadAccess); Translate(o.mem, root, c, va, StoreAccess).pa == o.pa
  {
    hide WalkOf, Marked, WithOffset, PhysBase, Memory.Store, Permitted, Grown, OnlyMarked;
    var o := Translate(m, root, c, va, LoadAccess);
    TranslateOnlyMarks(m, root, c, va, LoadAccess);
    MarkedKeepsMapping(m, o.mem, root, root, va);
  }

  /** A store to the address just loaded from goes to the same place. */
  lemma SamePlace(s: State, va: bv64)
    requires Sound(s) && s.exc == NoException && Translated(s, va, LoadAccess).0.exc == NoException
    requires Translated(Translated(s, va, LoadAccess).0, va, StoreAccess).0.exc == NoException
    ensures var (t, pa) := Translated(s, va, LoadAccess); Translated(t, va, StoreAccess).1 == pa
  {
    hide Translated, Translate, CtxOf, OnlyMarked, Coherent;
    var t := Translated(s, va, LoadAccess).0;
    Succeeds(s, va, LoadAccess);
    TranslatedOnlyMarks(s, va, LoadAccess);
    Succeeds(t, va, StoreAccess);
    SameContext(s, t);
    TablePlaces(s.mem, s.root, CtxOf(s), va);
  }

  // ---- AMOs -------------------------------------------------------------------------------------------------

  function SizeOf(n: nat): (size: nat)
    ensures size > 0 && size % 2 == 0
  {
    if n == 4 then TWO32 else TWO64
  }

  /** The number that was in memory goes to rd, sign-extended, and the result to its place. */
  ghost predicate Exchanged(s: State, w: bv64, n: nat, at: nat, m: Mem, x: State, u: State)
    requires AllInRam(m, at, n) && AllInRam(x.mem, at, n)
  {
    var number := NumberOf(BytesAt(m, at, n));
    var result := AmoNumber(Funct5(w), SizeOf(n), number, Signed(Reg(s.regs, Rs2(w))));
    && Rewritten(x.mem, u.mem, at, n, result)
    && u == x.(mem := u.mem, regs := s.regs[Index(Rd(w)) := Word(Wrap(number, SizeOf(n)))])
  }

  /** So it is at the physical address of the load, which is that of the store; besides, memory is as the
      translations for the load and the store left it. */
  ghost predicate AmoDone(s: State, w: bv64, n: nat, u: State)
  {
    var va := Reg(s.regs, Rs1(w));
    var (t, pa) := Translated(s, va, LoadAccess);
    var (x, _) := Translated(t, va, StoreAccess);
    && t.exc == NoException && x.exc == NoException
    && AllInRam(t.mem, ToNat(pa), n) && AllInRam(x.mem, ToNat(pa), n)
    && Exchanged(s, w, n, ToNat(pa), t.mem, x, u)
  }

  lemma SameNumber(f5: bv64, size: nat, x: int, y: int, operand: int)
    requires size > 0 && size % 2 == 0 && Congruent(x, y, size)
    ensures AmoNumber(f5, size, x, operand) == AmoNumber(f5, size, y, operand)
  {
    hide Wrap, Bitwise;
    WrapCongruent(x, y, size);
  }

  lemma StoredNumber(f5: bv64, n: nat, v: bv64, b: bv64)
    requires f5 in [0x00, 0x01, 0x04, 0x08, 0x0c, 0x10, 0x14, 0x18, 0x1c] && (n == 4 || n == 8)
    ensures ToNat(AmoValue(f5, n, v, b)) % Scale(n) == AmoNumber(f5, SizeOf(n), ToNat(v), Signed(b)) % Scale(n)
  {
    hide ToNat, Signed, AmoValue, AmoNumber;
    Scales();
    AmoValueMeans(f5, n, v, b);
    SignedCongruent(v);
    SmallerModulus(Signed(v), ToNat(v));
    SameNumber(f5, SizeOf(n), Signed(v), ToNat(v), Signed(b));
  }

  lemma LoadedNumber(v: bv64, n: nat)
    requires n == 4 || n == 8
    ensures Narrow(v, n) == Word(Wrap(ToNat(v), SizeOf(n)))
  {
    hide ToNat, Signed, Word, Sext32, Wrap;
    SignedWord(v);
    SextWord(v, ToNat(v));
    SignedIsWrap(v);
  }

  lemma SignedIsWrap(v: bv64)
    ensures Signed(v) == Wrap(ToNat(v), TWO64)
  {}

  /** An AMO whose load was translated and made. */
  lemma AmoLoads(s: State, va: bv64, n: nat)
    requires Sound(s) && s.exc == NoException && (n == 4 || n == 8) && Aligned(va, n)
    requires MmuLoad(s, va, n).0.exc == NoException
    ensures var (t, pa) := Translated(s, va, LoadAccess);
            && t.exc == NoException && Sound(t) && t == s.(tlb := t.tlb, mem := t.mem)
            && AllInRam(t.mem, ToNat(pa), n)
            && MmuLoad(s, va, n).0 == t && ToNat(MmuLoad(s, va, n).1) == NumberOf(BytesAt(t.mem, ToNat(pa), n))
  {
    hide ToNat, Translated, MmuLoad, InRam, AllInRam, BytesAt, NumberOf, Translate, CtxOf, Aligned, Sound;
    MmuLoads(s, va, n);
    Succeeds(s, va, LoadAccess);
    AlignedAccess(s, va, LoadAccess, n);
  }

  lemma AmoStores(t: State, va: bv64, n: nat, v: bv64, x: int)
    requires Sound(t) && t.exc == NoException && (n == 4 || n == 8) && Aligned(va, n)
    requires ToNat(v) % Scale(n) == x % Scale(n) && MmuStore(t, va, n, v).exc == NoException
    ensures var (y, pa), u := Translated(t, va, StoreAccess), MmuStore(t, va, n, v);
            && y.exc == NoException && y == t.(tlb := y.tlb, mem := y.mem)
            && AllInRam(y.mem, ToNat(pa), n) && u == y.(mem := u.mem) && Rewritten(y.mem, u.mem, ToNat(pa), n, x)
  {
    hide ToNat, Translated, MmuStore, InRam, AllInRam, Rewritten, Translate, CtxOf, Aligned, Sound, Scale;
    MmuStores(t, va, n, v, x);
    Succeeds(t, va, StoreAccess);
    AlignedAccess(t, va, StoreAccess, n);
  }

  /** An aligned AMO that ends without an exception. */
  lemma AmoMeans(s: State, w: bv64, n: nat)
    requires Sound(s) && s.exc == NoException && (n == 4 || n == 8) && Aligned(Reg(s.regs, Rs1(w)), n)
    requires Funct5(w) in [0x00, 0x01, 0x04, 0x08, 0x0c, 0x10, 0x14, 0x18, 0x1c]
    requires Amo(s, w, n).exc == NoException
    ensures AmoDone(s, w, n, Amo(s, w, n))
  {
    hide ToNat, Translated, MmuLoad, MmuStore, AllInRam, BytesAt, NumberOf, Aligned, Sound, Scale, Rewritten, AmoValue,
      AmoNumber, Narrow, Reg, Rs1, Rs2, Rd, Funct5, Word, Wrap, Signed, Index, SizeOf;
    var va, f5, b := Reg(s.regs, Rs1(w)), Funct5(w), Reg(s.regs, Rs2(w));
    if MmuLoad(s, va, n).0.exc != NoException {
      AmoKeepsFault(s, w, n);
    }
    AmoLoads(s, va, n);
    var (t, v) := MmuLoad(s, va, n);
    StoredNumber(f5, n, v, b);
    AmoStores(t, va, n, AmoValue(f5, n, v, b), AmoNumber(f5, SizeOf(n), ToNat(v), Signed(b)));
    SamePlace(s, va);
    LoadedNumber(v, n);
  }

  lemma CheckedAligned(s: State, w: bv64, n: nat)
    requires s.exc == NoException
    ensures if Aligned(Reg(s.regs, Rs1(w)), n) then Checked(s, w, n) == s else Checked(s, w, n).exc != NoException
  {
    hide Aligned, Reg, Rs1;
  }

  /** amoadd, amoswap, amoxor, amoor, amoand and the four extremes, in both widths: when the instruction
      does not trap the word at its physical address is the result, and rd the old word. */
  lemma AmoExecutes(s: State, w: bv64)
    requires Opcode(w) == 0x2f && (Funct3(w) == 2 || Funct3(w) == 3)
    requires Funct5(w) in [0x00, 0x01, 0x04, 0x08, 0x0c, 0x10, 0x14, 0x18, 0x1c]
    requires Sound(s) && s.exc == NoException
    requires Execute32(s, w).Some? && Execute32(s, w).value.exc == NoException
    ensures AmoDone(s, w, if Funct3(w) == 2 then 4 else 8, Execute32(s, w).value)
  {
    hide Opcode, Funct3, Funct5, Sound, AmoDone, Amo, LoadReserved, StoreConditional, Checked, SystemOp, Effect32,
      Aligned, Reg, Rs1;
    var n := if Funct3(w) == 2 then 4 else 8;
    assert IsAmo(Funct5(w)) && Funct5(w) != LR && Funct5(w) != SC;
    CheckedAligned(s, w, n);
    if !Aligned(Reg(s.regs, Rs1(w)), n) {
      AmoKeepsFault(Checked(s, w, n), w, n);
    }
    AmoMeans(s, w, n);
  }

  // ---- Load-reserved and store-conditional -----------------------------------------------------------------

  /** rd gets the number in memory, sign-extended, and the address is reserved. */
  ghost predicate ReserveDone(s: State, w: bv64, n: nat, u: State)
  {
    var va := Reg(s.regs, Rs1(w));
    var (t, pa) := Translated(s, va, LoadAccess);
    && t.exc == NoException && AllInRam(t.mem, ToNat(pa), n)
    && var number := NumberOf(BytesAt(t.mem, ToNat(pa), n));
       u == t.(regs := s.regs[Index(Rd(w)) := Word(Wrap(number, SizeOf(n)))], reservations := s.reservations + {va})
  }

  lemma ReserveMeans(s: State, w: bv64, n: nat)
    requires Sound(s) && s.exc == NoException && (n == 4 || n == 8) && Aligned(Reg(s.regs, Rs1(w)), n)
    requires LoadReserved(s, w, n).exc == NoException
    ensures ReserveDone(s, w, n, LoadReserved(s, w, n))
  {
    hide ToNat, Translated, MmuLoad, AllInRam, BytesAt, NumberOf, Aligned, Sound, Narrow, Reg, Rs1, Rd, Word, Wrap,
      Index, SizeOf;
    AmoLoads(s, Reg(s.regs, Rs1(w)), n);
    LoadedNumber(MmuLoad(s, Reg(s.regs, Rs1(w)), n).1, n);
  }

  /** The low `n` bytes of the number are stored and rd is 0. */
  ghost predicate Stored(s: State, va: bv64, n: nat, number: int, rd: bv64, u: State)
  {
    var (x, pa) := Translated(s, va, StoreAccess);
    && x.exc == NoException && AllInRam(x.mem, ToNat(pa), n) && Rewritten(x.mem, u.mem, ToNat(pa), n, number)
    && u == x.(mem := u.mem, regs := s.regs[Index(rd) := Word(0)])
  }

  /** A reserved address is stored to; without a reservation nothing is stored and rd is 1. */
  ghost predicate ConditionalDone(s: State, w: bv64, n: nat, u: State)
  {
    var va := Reg(s.regs, Rs1(w));
    if va in s.reservations then
      Stored(s.(reservations := s.reservations - {va}), va, n, Signed(Reg(s.regs, Rs2(w))), Rd(w), u)
    else u == s.(regs := s.regs[Index(Rd(w)) := Word(1)])
  }

  lemma LowRegisterBytes(v: bv64, n: nat)
    requires n == 4 || n == 8
    ensures ToNat(Low(v, n)) % Scale(n) == Signed(v) % Scale(n)
  {
    hide ToNat, Signed, Low;
    Scales();
    LowMeans(v);
    ModOnce(Signed(v));
    ModTwice(Signed(v));
  }

  lemma Verdicts()
    ensures Word(0) == 0 && Word(1) == 1
  {
    hide ToNat, Word;
    Digits();
    SignedWord(0);
    SignedWord(1);
  }

  lemma SoundWithout(s: State, a: bv64)
    requires Sound(s)
    ensures Sound(s.(reservations := s.reservations - {a}))
  {
    hide InStep;
  }

  lemma ConditionalMeans(s: State, w: bv64, n: nat)
    requires Sound(s) && s.exc == NoException && (n == 4 || n == 8) && Aligned(Reg(s.regs, Rs1(w)), n)
    requires StoreConditional(s, w, n).exc == NoException
    ensures ConditionalDone(s, w, n, StoreConditional(s, w, n))
  {
    hide ToNat, Translated, MmuStore, AllInRam, Rewritten, Aligned, Sound, Low, Reg, Rs1, Rs2, Rd, Word, Index, Signed,
      Scale;
    var va, b := Reg(s.regs, Rs1(w)), Reg(s.regs, Rs2(w));
    Verdicts();
    if va in s.reservations {
      var t := s.(reservations := s.reservations - {va});
      SoundWithout(s, va);
      LowRegisterBytes(b, n);
      AmoStores(t, va, n, Low(b, n), Signed(b));
    }
  }

  /** lr and sc that do not trap. */
  lemma ReservationExecutes(s: State, w: bv64)
    requires Opcode(w) == 0x2f && (Funct3(w) == 2 || Funct3(w) == 3) && (Funct5(w) == 2 || Funct5(w) == 3)
    requires Sound(s) && s.exc == NoException
    requires Execute32(s, w).Some? && Execute32(s, w).value.exc == NoException
    ensures var n, u := if Funct3(w) == 2 then 4 else 8, Execute32(s, w).value;
            if Funct5(w) == 2 then ReserveDone(s, w, n, u) else ConditionalDone(s, w, n, u)
  {
    hide Opcode, Funct3, Funct5, Sound, ReserveDone, ConditionalDone, Amo, LoadReserved, StoreConditional, Checked,
      SystemOp, Effect32, Aligned, Reg, Rs1, IsAmo;
    var n := if Funct3(w) == 2 then 4 else 8;
    CheckedAligned(s, w, n);
    if !Aligned(Reg(s.regs, Rs1(w)), n) {
      ReservationKeepsFault(Checked(s, w, n), w, n);
    }
    if Funct5(w) == 2 {
      ReserveMeans(s, w, n);
    } else {
      ConditionalMeans(s, w, n);
    }
  }

  lemma ReservationKeepsFault(s: State, w: bv64, n: nat)
    requires s.exc != NoException
    ensures LoadReserved(s, w, n).exc != NoException && StoreConditional(s, w, n).exc != NoException
  {
    hide MmuLoad, MmuStore, Reg, Rs1, Rs2, Rd, Narrow, Low, Index;
    var va := Reg(s.regs, Rs1(w));
    LoadKeepsException(s, va, n);
    StoreKeepsException(s.(reservations := s.reservations - {va}), va, n, Low(Reg(s.regs, Rs2(w)), n));
  }

  /** The other atomics trap: those with another funct3 or funct5 are illegal, and a misaligned address
      raises an exception in every operation. */
  lemma AtomicTraps(s: State, w: bv64)
    requires Opcode(w) == 0x2f && s.exc == NoException
    ensures Execute32(s, w).Some?
    ensures Funct3(w) != 2 && Funct3(w) != 3 ==>
              Execute32(s, w).value == s.(exc := IllegalInstruction, excData := w)
    ensures (Funct3(w) == 2 || Funct3(w) == 3)
            && Funct5(w) !in [0x00, 0x01, 0x02, 0x03, 0x04, 0x08, 0x0c, 0x10, 0x14, 0x18, 0x1c] ==>
              Execute32(s, w).value == s.(exc := IllegalInstruction, excData := w)
    ensures (Funct3(w) == 2 && ToNat(Reg(s.regs, Rs1(w))) % 4 != 0)
            || (Funct3(w) == 3 && ToNat(Reg(s.regs, Rs1(w))) % 8 != 0) ==>
              Execute32(s, w).value.exc != NoException
  {
    hide Opcode, Funct3, Funct5, AtomicOp, SystemOp, Effect32, ToNat, Reg, Rs1;
    AtomicOpTraps(s, w, 4);
    AtomicOpTraps(s, w, 8);
  }

  lemma AtomicOpTraps(s: State, w: bv64, n: nat)
    requires s.exc == NoException && (n == 4 || n == 8)
    ensures Funct5(w) !in [0x00, 0x01, 0x02, 0x03, 0x04, 0x08, 0x0c, 0x10, 0x14, 0x18, 0x1c] ==>
              AtomicOp(s, w, n) == s.(exc := IllegalInstruction, excData := w)
    ensures ToNat(Reg(s.regs, Rs1(w))) % n != 0 ==> AtomicOp(s, w, n).exc != NoException
  {
    hide ToNat, Funct5, AtomicOp, Aligned, Reg, Rs1;
    AlignedMeans(Reg(s.regs, Rs1(w)), n);
    UnknownAtomic(s, w, n);
    if !Aligned(Reg(s.regs, Rs1(w)), n) {
      MisalignedAtomic(s, w, n);
    }
  }

  lemma UnknownAtomic(s: State, w: bv64, n: nat)
    requires s.exc == NoException
    ensures Funct5(w) !in [0x00, 0x01, 0x02, 0x03, 0x04, 0x08, 0x0c, 0x10, 0x14, 0x18, 0x1c] ==>
              AtomicOp(s, w, n) == s.(exc := IllegalInstruction, excData := w)
  {
    hide Funct5, Amo, LoadReserved, StoreConditional, Aligned, Reg, Rs1;
  }

  lemma MisalignedAtomic(s: State, w: bv64, n: nat)
    requires s.exc == NoException && !Aligned(Reg(s.regs, Rs1(w)), n)
    ensures AtomicOp(s, w, n).exc != NoException
  {
    hide Funct5, Amo, LoadReserved, StoreConditional, Checked, Aligned, Reg, Rs1, IsAmo;
    CheckedAligned(s, w, n);
    AmoKeepsFault(Checked(s, w, n), w, n);
    ReservationKeepsFault(Checked(s, w, n), w, n);
  }

  /** The exception is that of the alignment, or a page fault of the accesses that follow all the same. */
  predicate PageFaultOr(e: Exception, expected: Exception)
  {
    e == expected || e == LoadPageFault || e == StorePageFault
  }

  lemma TranslationKeeps(s: State, va: bv64, acc: PageTable.Access, e: Exception)
    requires Sound(s) && e != NoException && PageFaultOr(s.exc, e) && acc != FetchAccess
    ensures PageFaultOr(Translated(s, va, acc).0.exc, e) && Sound(Translated(s, va, acc).0)
  {
    hide InStep, ServeIn, CtxOf, OnlyMarked;
    ServedOnlyMarks(s, va, acc);
  }

  lemma LoadKeeps(s: State, va: bv64, n: nat, e: Exception)
    requires Sound(s) && e != NoException && PageFaultOr(s.exc, e)
    ensures PageFaultOr(MmuLoad(s, va, n).0.exc, e) && Sound(MmuLoad(s, va, n).0)
  {
    hide Translated, BusLoad, Sound;
    TranslationKeeps(s, va, LoadAccess, e);
  }

  lemma StoreKeeps(s: State, va: bv64, n: nat, v: bv64, e: Exception)
    requires Sound(s) && e != NoException && PageFaultOr(s.exc, e)
    ensures PageFaultOr(MmuStore(s, va, n, v).exc, e)
  {
    hide Translated, BusStore, Sound;
    TranslationKeeps(s, va, StoreAccess, e);
  }

  lemma OperationKeeps(s: State, w: bv64, n: nat, e: Exception)
    requires Sound(s) && e != NoException && PageFaultOr(s.exc, e)
    ensures PageFaultOr(Amo(s, w, n).exc, e)
    ensures PageFaultOr(LoadReserved(s, w, n).exc, e) && PageFaultOr(StoreConditional(s, w, n).exc, e)
  {
    hide MmuLoad, MmuStore, Reg, Rs1, Rs2, Rd, Narrow, Low, Index, AmoValue, Funct5, Sound, PageFaultOr;
    var va, b := Reg(s.regs, Rs1(w)), Reg(s.regs, Rs2(w));
    LoadKeeps(s, va, n, e);
    var (t, v) := MmuLoad(s, va, n);
    StoreKeeps(t, va, n, AmoValue(Funct5(w), n, v, b), e);
    SoundWithout(s, va);
    StoreKeeps(s.(reservations := s.reservations - {va}), va, n, Low(b, n), e);
  }

  /** A misaligned word raises InstructionAddressMisaligned, a misaligned doubleword an illegal instruction,
      unless the accesses, which are made all the same, end in a page fault. */
  lemma MisalignedRaises(s: State, w: bv64)
    requires Opcode(w) == 0x2f && Sound(s) && s.exc == NoException
    requires Funct5(w) in [0x00, 0x01, 0x02, 0x03, 0x04, 0x08, 0x0c, 0x10, 0x14, 0x18, 0x1c]
    ensures Execute32(s, w).Some?
    ensures Funct3(w) == 2 && ToNat(Reg(s.regs, Rs1(w))) % 4 != 0 ==>
              PageFaultOr(Execute32(s, w).value.exc, InstructionAddressMisaligned)
    ensures Funct3(w) == 3 && ToNat(Reg(s.regs, Rs1(w))) % 8 != 0 ==>
              PageFaultOr(Execute32(s, w).value.exc, IllegalInstruction)
  {
    hide Opcode, Funct3, Funct5, AtomicOp, SystemOp, Effect32, ToNat, Reg, Rs1, Sound, PageFaultOr;
    if Funct3(w) == 2 && ToNat(Reg(s.regs, Rs1(w))) % 4 != 0 {
      MisalignedOp(s, w, 4);
    } else if Funct3(w) == 3 && ToNat(Reg(s.regs, Rs1(w))) % 8 != 0 {
      MisalignedOp(s, w, 8);
    }
  }

  lemma MisalignedChecked(s: State, w: bv64, n: nat)
    requires (n == 4 || n == 8) && ToNat(Reg(s.regs, Rs1(w))) % n != 0
    ensures Checked(s, w, n).exc == if n == 4 then InstructionAddressMisaligned else IllegalInstruction
  {
    hide ToNat, Aligned, Reg, Rs1;
    AlignedMeans(Reg(s.regs, Rs1(w)), n);
  }

  lemma MisalignedOp(s: State, w: bv64, n: nat)
    requires Sound(s) && s.exc == NoException && (n == 4 || n == 8) && ToNat(Reg(s.regs, Rs1(w))) % n != 0
    requires Funct5(w) in [0x00, 0x01, 0x02, 0x03, 0x04, 0x08, 0x0c, 0x10, 0x14, 0x18, 0x1c]
    ensures PageFaultOr(AtomicOp(s, w, n).exc, if n == 4 then InstructionAddressMisaligned else IllegalInstruction)
  {
    hide ToNat, Funct5, Amo, LoadReserved, StoreConditional, Checked, Reg, Rs1, Sound;
    MisalignedChecked(s, w, n);
    CheckedKeeps(s, w, n);
    OperationKeeps(Checked(s, w, n), w, n, if n == 4 then InstructionAddressMisaligned else IllegalInstruction);
  }
}
