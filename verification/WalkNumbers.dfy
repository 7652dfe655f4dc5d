/** The page walk and the checks of section 4.3.2 of the Privileged Architecture on numbers, as the emulator
    applies them: the bits of addresses, PTEs, satp and mstatus are those of its numbers. */
module WalkNumbers {
  import opened Bits
  import opened Memory
  import opened Pte
  import opened PageTable
  import opened MulDiv
  import opened Ordering
  import opened PageArithmetic
  import opened Numbers
  import opened LittleEndian
  import opened AccessPath

  /** A binary digit of a number. */
  predicate Bit(x: nat, k: nat) { x / Pow2(k) % 2 == 1 }

  /** The number that the eight bytes at an address make up, least significant first; a PTE outside RAM
      reads as 0. */
  function WordAt(m: Mem, a: nat): nat { NumberAt(m, a, 8) }

  /** The page number of a PTE: its 44 bits from bit 10 on. */
  function PageNumber(pte: nat): nat { pte / 1024 % 0x1000_0000_0000 }

  datatype Found = NoPage | Page(level: nat, at: nat, pte: nat)

  /** From a table down: bits 0 to 3 of a PTE are V, R, W and X; the page number of a leaf above the last
      level is a multiple of its size. */
  function Walked(m: Mem, va: nat, table: nat, level: int): Found
    decreases level + 1
  {
    if level < 0 then NoPage
    else
      var a := table + va / Pow2(12 + 9 * level) % 512 * 8;
      var pte := WordAt(m, a);
      if !Bit(pte, 0) || (!Bit(pte, 1) && Bit(pte, 2)) then NoPage
      else if Bit(pte, 1) || Bit(pte, 3) then
        if PageNumber(pte) % Pow2(9 * level) != 0 then NoPage else Page(level, a, pte)
      else Walked(m, va, PageNumber(pte) * 4096, level - 1)
  }

  /** The walk that a value of satp starts: mode 8, 9 or 10 in bits 63 to 60 has 3, 4 or 5 levels, another
      none; the root table is the page number in bits 43 to 0, cut to 32 bits of address. */
  function Resolved(m: Mem, satp: nat, va: nat): Found
  {
    var mode, table := satp / Pow2(60), satp % Pow2(44) * 4096 % TWO32;
    if mode == 8 then Walked(m, va, table, 2)
    else if mode == 9 then Walked(m, va, table, 3)
    else if mode == 10 then Walked(m, va, table, 4)
    else NoPage
  }

  // ---- The fields of addresses and PTEs ------------------------------------------------------------------

  lemma FlagBits(pte: bv64)
    ensures HasV(pte) == ReadBit(pte, 0) && HasR(pte) == ReadBit(pte, 1) && HasW(pte) == ReadBit(pte, 2)
    ensures HasX(pte) == ReadBit(pte, 3) && HasU(pte) == ReadBit(pte, 4)
    ensures HasA(pte) == ReadBit(pte, 6) && HasD(pte) == ReadBit(pte, 7)
  {}

  lemma Indices()
    ensures ToNat(0) == 0 && ToNat(1) == 1 && ToNat(2) == 2 && ToNat(3) == 3 && ToNat(4) == 4
    ensures ToNat(6) == 6 && ToNat(7) == 7
  {}

  lemma Flags(pte: bv64)
    ensures var p := ToNat(pte);
            && HasV(pte) == Bit(p, 0) && HasR(pte) == Bit(p, 1) && HasW(pte) == Bit(p, 2) && HasX(pte) == Bit(p, 3)
            && HasU(pte) == Bit(p, 4) && HasA(pte) == Bit(p, 6) && HasD(pte) == Bit(p, 7)
  {
    hide ToNat, ReadBit, HasV, HasR, HasW, HasX, HasU, HasA, HasD, Pow2;
    FlagBits(pte);
    Indices();
    BitMeans(pte, 0);
    BitMeans(pte, 1);
    BitMeans(pte, 2);
    BitMeans(pte, 3);
    BitMeans(pte, 4);
    BitMeans(pte, 6);
    BitMeans(pte, 7);
  }

  lemma VpnAt0(va: bv64)
    ensures Vpn(va, 0) == And(Shr(va, 12), Ones(9)) && ToNat(12) == 12 && ToNat(9) == 9
  {}

  lemma VpnAt1(va: bv64)
    ensures Vpn(va, 1) == And(Shr(va, 21), Ones(9)) && ToNat(21) == 21
  {}

  lemma VpnAt2(va: bv64)
    ensures Vpn(va, 2) == And(Shr(va, 30), Ones(9)) && ToNat(30) == 30
  {}

  lemma VpnAt3(va: bv64)
    ensures Vpn(va, 3) == And(Shr(va, 39), Ones(9)) && ToNat(39) == 39
  {}

  lemma VpnAt4(va: bv64)
    ensures Vpn(va, 4) == And(Shr(va, 48), Ones(9)) && ToNat(48) == 48
  {}

  lemma VpnShifted(va: bv64, i: Level)
    ensures Vpn(va, i) == And(Shr(va, OffsetBits(i)), Ones(9)) && ToNat(OffsetBits(i)) == 12 + 9 * i && ToNat(9) == 9
  {
    hide Vpn, And, Shr, Ones, ToNat;
    OffsetBitsAre(i);
    VpnAt0(va);
    if i == 1 {
      VpnAt1(va);
    } else if i == 2 {
      VpnAt2(va);
    } else if i == 3 {
      VpnAt3(va);
    } else if i == 4 {
      VpnAt4(va);
    }
  }

  lemma NinePlaces()
    ensures Pow2(9) == 512
  {
    assert Pow2(4) == 16;
  }

  lemma VpnMeans(va: bv64, i: Level)
    ensures ToNat(Vpn(va, i)) == ToNat(va) / Pow2(12 + 9 * i) % 512
  {
    hide ToNat, Vpn, And, Shr, Ones, Pow2, OffsetBits;
    VpnShifted(va, i);
    NinePlaces();
    ShrMeans(va, OffsetBits(i));
    LowBits(Shr(va, OffsetBits(i)), 9);
  }

  lemma TenPlaces()
    ensures Pow2(10) == 1024 && ToNat(10) == 10
  {
    assert Pow2(5) == 32;
  }

  lemma PpnMeans(pte: bv64)
    ensures ToNat(Ppn(pte)) == PageNumber(ToNat(pte))
  {
    hide ToNat, Ppn, And, Shr, Ones, Pow2;
    PpnMasked(pte);
    TenPlaces();
    Powers();
    ShrMeans(pte, 10);
    LowBits(Shr(pte, 10), 44);
  }

  lemma ScaledRemainder(x: nat, k: nat, p: nat)
    requires k > 0 && p > 0
    ensures x * k % (k * p) == x % p * k
  {
    Division(x, p);
    var q := x / p;
    assert x * k == q * (k * p) + x % p * k;
    assert x % p * k < k * p by { Product(k - 1, p - 1 - x % p); }
    ModUnique(x * k, x % p * k, q, k * p);
  }

  lemma ZeroOnly(v: bv64)
    ensures v == 0 <==> ToNat(v) == 0
  {
    hide ToNat;
    Indices();
    if ToNat(v) == 0 {
      NoBits(v);
    }
  }

  /** A leaf is misaligned when its page number is not a multiple of its size in pages. */
  lemma MisalignedMeans(pte: bv64, i: Level)
    ensures Misaligned(pte, i) <==> PageNumber(ToNat(pte)) % Pow2(9 * i) != 0
  {
    hide ToNat, Ppn, And, Shl, Ones, Overlaps, OffsetMask, Pow2, PageNumber;
    var ppn := Ppn(pte);
    PpnMeans(pte);
    ShiftedPpn(ppn, i);
    OffsetMaskIs(i);
    OffsetBitsAre(i);
    LowBits(Shl(ppn, 12), OffsetBits(i));
    Powers();
    PpnBound(pte);
    PpnMasked(pte);
    ShlMultiplies(ppn, 12);
    Pow2Sum(12, 9 * i);
    ScaledRemainder(ToNat(ppn), 4096, Pow2(9 * i));
    ZeroOnly(And(Shl(ppn, 12), OffsetMask(i)));
  }

  // ---- The walk ------------------------------------------------------------------------------------------

  lemma PteRead(m: Mem, a: nat)
    ensures ToNat(Load(m, a, 8)) == WordAt(m, a)
  {
    hide ToNat, Load, NumberAt;
    LoadsNumber(m, a, 8);
  }

  /** The walk on words is the walk on numbers. */
  ghost predicate SameWalk(w: Walk, f: Found)
  {
    match w
    case Fault => f == NoPage
    case Leaf(i, a, pte) => f == Page(i, a, ToNat(pte))
  }

  lemma {:induction false} WalkMeans(m: Mem, va: bv64, table: nat, i: int)
    requires i < 5
    ensures SameWalk(WalkFrom(m, va, table, i), Walked(m, ToNat(va), table, i))
    decreases i + 1
  {
    hide ToNat, Load, Bit, WordAt, PageNumber, Pow2, HasV, HasR, HasW, HasX, Misaligned, Vpn, TableOf;
    if i >= 0 {
      var a := PteAddr(va, table, i);
      var pte := Load(m, a, 8);
      VpnMeans(va, i);
      PteRead(m, a);
      Flags(pte);
      MisalignedMeans(pte, i);
      TableMeans(pte);
      WalkMeans(m, va, TableOf(pte), i - 1);
    }
  }

  lemma TableMeans(pte: bv64)
    ensures TableOf(pte) == PageNumber(ToNat(pte)) * 4096
  {
    hide ToNat, Ppn, PageNumber;
    PpnMeans(pte);
  }

  // ---- satp ----------------------------------------------------------------------------------------------

  lemma RootParts(satp: bv64)
    ensures ReadBits(satp, 63, 60) == And(Shr(satp, 60), Ones(4))
    ensures ReadBits(satp, 43, 0) == And(Shr(satp, 0), Ones(44))
    ensures ToNat(60) == 60 && ToNat(4) == 4 && ToNat(44) == 44
  {
    hide And, Shr;
  }

  lemma SixtyPlaces()
    ensures Pow2(60) == 0x1000_0000_0000_0000 && Pow2(44) == 0x1000_0000_0000 && Pow2(4) == 16
  {
    Powers();
    Pow2Sum(44, 16);
    assert Pow2(8) == 256;
    assert Pow2(16) == 0x1_0000;
  }

  lemma RootMeans(satp: bv64)
    ensures ToNat(RootOf(satp).mode) == ToNat(satp) / Pow2(60)
    ensures RootOf(satp).table == ToNat(satp) % Pow2(44) * 4096 % TWO32
  {
    hide ToNat, And, Shr, Ones, ReadBits, Pow2;
    RootParts(satp);
    SixtyPlaces();
    ShrMeans(satp, 60);
    ShrNone(satp);
    LowBits(Shr(satp, 60), 4);
    LowBits(satp, 44);
    Ranges(satp);
    ModeFits(ToNat(satp));
  }

  lemma ModeFits(x: nat)
    requires x < TWO64
    ensures x / 0x1000_0000_0000_0000 % 16 == x / 0x1000_0000_0000_0000
  {}

  lemma ModeNumbers()
    ensures ToNat(0) == 0 && ToNat(8) == 8 && ToNat(9) == 9 && ToNat(10) == 10
  {}

  lemma ModeMeans(v: bv64)
    ensures (v == BARE <==> ToNat(v) == 0) && (v == SV39 <==> ToNat(v) == 8)
    ensures (v == SV48 <==> ToNat(v) == 9) && (v == SV57 <==> ToNat(v) == 10)
  {
    hide ToNat, Isa.Below;
    ModeNumbers();
    BelowMeans(v, 0);
    BelowMeans(v, 8);
    BelowMeans(v, 9);
    BelowMeans(v, 10);
  }

  /** The walk that the MMU makes after satp was written. */
  lemma WalkOfMeans(m: Mem, satp: bv64, va: bv64)
    ensures SameWalk(WalkOf(m, RootOf(satp), va), Resolved(m, ToNat(satp), ToNat(va)))
  {
    hide ToNat, Pow2, WalkFrom, Walked, RootOf, SameWalk;
    RootMeans(satp);
    ModeMeans(RootOf(satp).mode);
    var n: int := Levels(RootOf(satp).mode);
    WalkMeans(m, va, RootOf(satp).table, n - 1);
    NoWalk(m, va, RootOf(satp).table);
  }

  lemma NoWalk(m: Mem, va: bv64, table: nat)
    ensures Walked(m, ToNat(va), table, -1) == NoPage
  {
    hide ToNat;
  }

  // ---- Permissions and marks -----------------------------------------------------------------------------

  /** Step 5, for a mode other than machine mode. */
  predicate Granted(pte: nat, priv: Priv, sum: bool, mxr: bool, acc: PageTable.Access)
  {
    && (match priv
        case User => Bit(pte, 4)
        case Supervisor => !Bit(pte, 4) || (sum && !acc.FetchAccess?)
        case _ => Bit(pte, 4) && sum && !acc.FetchAccess?)
    && (match acc
        case LoadAccess => Bit(pte, 1) || (Bit(pte, 3) && mxr)
        case StoreAccess => Bit(pte, 2)
        case FetchAccess => Bit(pte, 3))
  }

  lemma GrantedMeans(pte: bv64, priv: Priv, sum: bool, mxr: bool, acc: PageTable.Access)
    ensures Permitted(pte, priv, sum, mxr, acc) <==> Granted(ToNat(pte), priv, sum, mxr, acc)
  {
    hide ToNat, Bit, HasR, HasW, HasX, HasU;
    Flags(pte);
  }

  /** The number with a binary digit set. */
  function WithBit(x: nat, k: nat): nat { if Bit(x, k) then x else x + Pow2(k) }

  /** Step 7: bit 6 is A, bit 7 is D. */
  function MarkedNumber(pte: nat, acc: PageTable.Access): nat
  {
    if acc.StoreAccess? then WithBit(WithBit(pte, 6), 7) else WithBit(pte, 6)
  }

  lemma MarkBits(pte: bv64)
    ensures SetA(pte) == Or(pte, 0x40) && SetD(pte) == Or(pte, 0x80)
    ensures !HasA(pte) ==> And(pte, 0x40) == 0
    ensures !HasD(pte) ==> And(pte, 0x80) == 0
    ensures ToNat(0x40) == 0x40 && ToNat(0x80) == 0x80
  {}

  lemma MarkPlaces()
    ensures Pow2(6) == 0x40 && Pow2(7) == 0x80
  {
    assert Pow2(3) == 8;
  }

  lemma SetMeans(pte: bv64)
    ensures ToNat(SetA(pte)) == WithBit(ToNat(pte), 6) && ToNat(SetD(pte)) == WithBit(ToNat(pte), 7)
  {
    hide ToNat, SetA, SetD, HasA, HasD, HasV, HasR, HasW, HasX, HasU, Or, And, Pow2, Bit, Clean;
    MarkBits(pte);
    MarkPlaces();
    Flags(pte);
    if HasA(pte) {
      SetAFacts(pte);
    } else {
      OrAdds(pte, 0x40);
    }
    if HasD(pte) {
      SetDFacts(pte);
    } else {
      OrAdds(pte, 0x80);
    }
  }

  lemma MarkedMeans(pte: bv64, acc: PageTable.Access)
    ensures ToNat(Marked(pte, acc)) == MarkedNumber(ToNat(pte), acc)
  {
    hide ToNat, SetA, SetD, WithBit;
    SetMeans(pte);
    SetMeans(SetA(pte));
  }
}
