/** The physical page of a leaf as a number: masks and shifts are what the formulas of section 4.3.2
    of the Privileged Architecture say. */
module PageArithmetic {
  import opened Bits
  import opened Memory
  import opened Pte
  import opened PageTable
  import opened MulDiv
  import opened Ordering

  function Pow2(n: nat): (p: nat)
    ensures p > 0
  {
    if n == 0 then 1 else 2 * Pow2(n - 1)
  }

  // ---- Disjoint words ------------------------------------------------------------------------------------

  lemma HalfOfOr(a: bv64, b: bv64)
    ensures Half(Or(a, b)) == Or(Half(a), Half(b)) && IsOdd(Or(a, b)) == (IsOdd(a) || IsOdd(b))
  {}

  lemma HalfOfAnd(a: bv64, b: bv64)
    ensures Half(And(a, b)) == And(Half(a), Half(b)) && IsOdd(And(a, b)) == (IsOdd(a) && IsOdd(b))
  {}

  lemma HalfOfNone()
    ensures Half(0) == 0 && !IsOdd(0) && Or(0, 0) == 0 && ToNat(0) == 0
  {}

  /** Words without a common bit add up. */
  lemma {:induction false} OrAdds(a: bv64, b: bv64)
    requires And(a, b) == 0
    ensures ToNat(Or(a, b)) == ToNat(a) + ToNat(b)
    decreases ToNat(a) + ToNat(b)
  {
    hide ToNat, Half, IsOdd, Or, And;
    HalfOfNone();
    if ToNat(a) + ToNat(b) == 0 {
      NoBits(a);
      NoBits(b);
    } else {
      HalfOfOr(a, b);
      HalfOfAnd(a, b);
      ToNatHalf(a);
      ToNatHalf(b);
      ToNatHalf(Or(a, b));
      OrAdds(Half(a), Half(b));
    }
  }

  lemma NoBits(a: bv64)
    requires ToNat(a) == 0
    ensures a == 0
  {
    OnlyZero(a);
  }

  // ---- Low bits --------------------------------------------------------------------------------------------

  lemma HalfOfOnes(n: BitIndex)
    requires n != 0
    ensures OneLess(n) < 64 && Half(Ones(n)) == Ones(OneLess(n)) && IsOdd(Ones(n))
  {}

  lemma NoOnes(v: bv64)
    ensures And(v, Ones(0)) == 0
  {}

  lemma OneMore(n: BitIndex)
    requires n != 0
    ensures OneLess(n) < 64 && ToNat(n) == ToNat(OneLess(n)) + 1 && OneLess(n) < n
  {}

  lemma NoneLow()
    ensures ToNat(0) == 0
  {}

  lemma HalfRemainder(x: nat, b: nat, p: nat)
    requires p > 0 && b < 2
    ensures (2 * x + b) % (2 * p) == 2 * (x % p) + b
  {
    Division(x, p);
    ModUnique(2 * x + b, 2 * (x % p) + b, x / p, 2 * p);
  }

  /** The low `n` bits are the remainder by 2^n. */
  lemma {:induction false} LowBits(v: bv64, n: BitIndex)
    ensures ToNat(And(v, Ones(n))) == ToNat(v) % Pow2(ToNat(n))
    decreases n
  {
    hide ToNat, Half, IsOdd, And, Ones, OneLess;
    NoneLow();
    if n == 0 {
      NoOnes(v);
    } else {
      OneMore(n);
      HalfOfOnes(n);
      HalfOfAnd(v, Ones(n));
      ToNatHalf(v);
      ToNatHalf(And(v, Ones(n)));
      LowBits(Half(v), OneLess(n));
      HalfRemainder(ToNat(Half(v)), LowBit(v), Pow2(ToNat(OneLess(n))));
    }
  }

  // ---- Shifts ------------------------------------------------------------------------------------------------

  lemma ShlOnce(v: bv64)
    requires ToNat(v) < TWO63
    ensures ToNat(Shl(v, 1)) == 2 * ToNat(v)
  {
    hide ToNat;
    Doubled(v);
  }

  /** A shift to the left that loses no bit multiplies. */
  lemma {:induction false} ShlMultiplies(v: bv64, n: BitIndex)
    requires ToNat(v) * Pow2(ToNat(n)) < TWO64
    ensures ToNat(Shl(v, n)) == ToNat(v) * Pow2(ToNat(n))
    decreases n
  {
    hide ToNat, Shl, OneLess;
    NoneLow();
    if n == 0 {
      ShlNone(v);
    } else {
      OneMore(n);
      ShlPlace(v, n);
      var p := Pow2(ToNat(OneLess(n)));
      assert ToNat(v) * (2 * p) == 2 * (ToNat(v) * p);
      ShlMultiplies(v, OneLess(n));
      ShlOnce(Shl(v, OneLess(n)));
    }
  }

  // ---- Pages ---------------------------------------------------------------------------------------------------

  /** The number of bits of the offset into a leaf at level `i`: 12 + 9i. */
  function OffsetBits(i: Level): BitIndex
  {
    match i
    case 0 => 12
    case 1 => 21
    case 2 => 30
    case 3 => 39
    case 4 => 48
  }

  lemma OffsetMaskIs(i: Level)
    ensures OffsetMask(i) == Ones(OffsetBits(i))
  {}

  lemma OffsetBitsAre(i: Level)
    ensures ToNat(OffsetBits(i)) == 12 + 9 * i
  {}

  /** The bits of an address between the offset into the page and the size of a leaf. */
  function PartMask(i: Level): bv64
  {
    match i
    case 0 => 0
    case 1 => 0x1f_f000
    case 2 => 0x3fff_f000
    case 3 => 0x7f_ffff_f000
    case 4 => 0xffff_ffff_f000
  }

  lemma MasksAre(i: Level)
    ensures Or(PartMask(i), 0xfff) == OffsetMask(i) && And(PartMask(i), 0xfff) == 0
    ensures And(PartMask(i), OffsetMask(i)) == PartMask(i)
  {}

  /** The bits of a page's address from the size of a leaf on. */
  function HighMask(i: Level): bv64
  {
    match i
    case 0 => 0xffff_ffff_ffff_ffff
    case 1 => 0xffff_ffff_ffe0_0000
    case 2 => 0xffff_ffff_c000_0000
    case 3 => 0xffff_ff80_0000_0000
    case 4 => 0xffff_0000_0000_0000
  }

  lemma HighMaskIs(i: Level)
    ensures HighMask(i) == if i == 0 then 0xffff_ffff_ffff_ffff else Not(OffsetMask(i))
  {}

  lemma KeepAll(x: bv64)
    ensures And(x, 0xffff_ffff_ffff_ffff) == x
  {}

  lemma FrameAt0(ppn: bv64, part: bv64)
    ensures Frame(ppn, part, 0) == Or(And(ppn << 12, 0xffff_ffff_ffff_ffff), part)
  {}

  lemma FrameAt1(ppn: bv64, part: bv64)
    ensures Frame(ppn, part, 1) == Or(And(ppn << 12, 0xffff_ffff_ffe0_0000), part)
  {}

  lemma FrameAt2(ppn: bv64, part: bv64)
    ensures Frame(ppn, part, 2) == Or(And(ppn << 12, 0xffff_ffff_c000_0000), part)
  {}

  lemma FrameAt3(ppn: bv64, part: bv64)
    ensures Frame(ppn, part, 3) == Or(And(ppn << 12, 0xffff_ff80_0000_0000), part)
  {}

  lemma FrameAt4(ppn: bv64, part: bv64)
    ensures Frame(ppn, part, 4) == Or(And(ppn << 12, 0xffff_0000_0000_0000), part)
  {}

  lemma PartAt0(va: bv64)
    ensures VpnPart(va, 0) == And(va, PartMask(0))
  {}

  lemma PartAt1(va: bv64)
    ensures VpnPart(va, 1) == And(va, PartMask(1))
  {}

  lemma PartAt2(va: bv64)
    ensures VpnPart(va, 2) == And(va, PartMask(2))
  {}

  lemma PartAt3(va: bv64)
    ensures VpnPart(va, 3) == And(va, PartMask(3))
  {}

  lemma PartAt4(va: bv64)
    ensures VpnPart(va, 4) == And(va, PartMask(4))
  {}

  lemma FrameAt(ppn: bv64, part: bv64, i: Level)
    ensures Frame(ppn, part, i) == Or(And(ppn << 12, HighMask(i)), part)
  {
    hide Frame, And, Or;
    if i == 0 {
      FrameAt0(ppn, part);
    } else if i == 1 {
      FrameAt1(ppn, part);
    } else if i == 2 {
      FrameAt2(ppn, part);
    } else if i == 3 {
      FrameAt3(ppn, part);
    } else {
      FrameAt4(ppn, part);
    }
  }

  lemma NoBit(i: BitIndex)
    ensures !ReadBit(0, i)
  {}

  /** Clearing bits that are clear changes nothing. */
  lemma ClearedAlready(x: bv64, m: bv64)
    requires And(x, m) == 0
    ensures And(x, Not(m)) == x
  {
    hide ReadBit, And, Not;
    forall i: BitIndex
      ensures ReadBit(And(x, Not(m)), i) == ReadBit(x, i)
    {
      NoBit(i);
      MaskedAt(x, m, i);
      NotAt(m, i);
      MaskedAt(x, Not(m), i);
    }
    BitsDecide(And(x, Not(m)), x);
  }

  lemma PartAt(va: bv64, i: Level)
    ensures VpnPart(va, i) == And(va, PartMask(i))
  {
    hide VpnPart, And, PartMask;
    if i == 0 {
      PartAt0(va);
    } else if i == 1 {
      PartAt1(va);
    } else if i == 2 {
      PartAt2(va);
    } else if i == 3 {
      PartAt3(va);
    } else {
      PartAt4(va);
    }
  }

  lemma Shifted12(ppn: bv64)
    ensures Shl(ppn, 12) == ppn << 12
  {}

  lemma OverlapsMeans(ppn: bv64, i: Level)
    ensures Overlaps(ppn, i) <==> And(ppn << 12, OffsetMask(i)) != 0
  {
    hide OffsetMask;
  }

  lemma ShiftedPpn(ppn: bv64, i: Level)
    ensures Shl(ppn, 12) == ppn << 12 && (Overlaps(ppn, i) <==> And(ppn << 12, OffsetMask(i)) != 0)
  {
    hide Shl, Overlaps, And;
    Shifted12(ppn);
    OverlapsMeans(ppn, i);
  }

  /** Masks that share no bit cut out words that share none, and together their union. */
  lemma MasksJoin(v: bv64, p: bv64, o: bv64)
    requires And(p, o) == 0
    ensures And(And(v, p), And(v, o)) == 0 && Or(And(v, p), And(v, o)) == And(v, Or(p, o))
  {
    hide ReadBit, And, Or;
    forall i: BitIndex
      ensures ReadBit(And(And(v, p), And(v, o)), i) == ReadBit(0, i)
      ensures ReadBit(Or(And(v, p), And(v, o)), i) == ReadBit(And(v, Or(p, o)), i)
    {
      NoBit(i);
      MaskedAt(p, o, i);
      MaskedAt(v, p, i);
      MaskedAt(v, o, i);
      MaskedAt(And(v, p), And(v, o), i);
      OrAt(And(v, p), And(v, o), i);
      OrAt(p, o, i);
      MaskedAt(v, Or(p, o), i);
    }
    BitsDecide(And(And(v, p), And(v, o)), 0);
    BitsDecide(Or(And(v, p), And(v, o)), And(v, Or(p, o)));
  }

  /** A word without the bits of a mask shares none with what a part of the mask cuts out. */
  lemma MaskApart(x: bv64, v: bv64, p: bv64, m: bv64)
    requires And(x, m) == 0 && And(p, m) == p
    ensures And(x, And(v, p)) == 0
  {
    hide ReadBit, And;
    forall i: BitIndex
      ensures ReadBit(And(x, And(v, p)), i) == ReadBit(0, i)
    {
      NoBit(i);
      MaskedAt(x, m, i);
      MaskedAt(p, m, i);
      MaskedAt(v, p, i);
      MaskedAt(x, And(v, p), i);
    }
    BitsDecide(And(x, And(v, p)), 0);
  }

  /** The page number of an aligned leaf has no bit where the virtual address has its part. */
  lemma AlignedFrame(ppn: bv64, va: bv64, i: Level)
    requires !Overlaps(ppn, i)
    ensures Frame(ppn, VpnPart(va, i), i) == Or(Shl(ppn, 12), VpnPart(va, i))
    ensures And(Shl(ppn, 12), VpnPart(va, i)) == 0
  {
    hide Overlaps, Frame, VpnPart, OffsetMask, PartMask, HighMask, And, Or, Not, Shl;
    ShiftedPpn(ppn, i);
    FrameAt(ppn, VpnPart(va, i), i);
    HighMaskIs(i);
    KeepAll(Shl(ppn, 12));
    ClearedAlready(Shl(ppn, 12), OffsetMask(i));
    PartAt(va, i);
    MasksAre(i);
    MaskApart(Shl(ppn, 12), va, PartMask(i), OffsetMask(i));
  }

  lemma PartAndOffset(va: bv64, i: Level)
    ensures Or(VpnPart(va, i), And(va, 0xfff)) == And(va, OffsetMask(i))
    ensures And(VpnPart(va, i), And(va, 0xfff)) == 0
  {
    hide VpnPart, OffsetMask, PartMask, And, Or;
    PartAt(va, i);
    MasksAre(i);
    MasksJoin(va, PartMask(i), 0xfff);
  }

  lemma PpnMasked(pte: bv64)
    ensures Ppn(pte) == And(Shr(pte, 10), Ones(44)) && Ones(12) == 0xfff && ToNat(12) == 12 && ToNat(44) == 44
  {}

  lemma Powers()
    ensures Pow2(12) == 4096 && Pow2(44) == 0x1000_0000_0000
  {
    assert Pow2(8) == 256;
    assert Pow2(16) == 0x1_0000;
    assert Pow2(24) == 0x100_0000;
    assert Pow2(32) == 0x1_0000_0000;
    assert Pow2(40) == 0x100_0000_0000;
  }

  lemma PpnBound(pte: bv64)
    ensures ToNat(Ppn(pte)) < 0x1000_0000_0000
  {
    hide ToNat, Ppn, And, Shr, Ones, Pow2;
    PpnMasked(pte);
    LowBits(Shr(pte, 10), 44);
    Powers();
    Division(ToNat(Shr(pte, 10)), Pow2(44));
  }

  /** The page of an aligned leaf at level `i`: the page number times 2^12, plus the address modulo
      2^(12 + 9i), less the offset into the page. */
  lemma PhysBaseMeans(pte: bv64, va: bv64, i: Level)
    requires !Misaligned(pte, i)
    ensures ToNat(PhysBase(pte, va, i)) ==
            ToNat(Ppn(pte)) * 4096 + ToNat(va) % Pow2(12 + 9 * i) - ToNat(va) % 4096
  {
    hide ToNat, Ppn, And, Or, Shl, Ones, Frame, VpnPart, OffsetMask, Overlaps, Pow2;
    var ppn, part := Ppn(pte), VpnPart(va, i);
    AlignedFrame(ppn, va, i);
    OrAdds(Shl(ppn, 12), part);
    PartAndOffset(va, i);
    OrAdds(part, And(va, 0xfff));
    OffsetMaskIs(i);
    OffsetBitsAre(i);
    PpnMasked(pte);
    LowBits(va, OffsetBits(i));
    LowBits(va, 12);
    Powers();
    PpnBound(pte);
    ShlMultiplies(ppn, 12);
  }

  lemma OrAgain(a: bv64, b: bv64, c: bv64)
    ensures Or(Or(a, b), c) == Or(a, Or(b, c))
  {
    hide ReadBit, Or;
    forall i: BitIndex
      ensures ReadBit(Or(Or(a, b), c), i) == ReadBit(Or(a, Or(b, c)), i)
    {
      OrAt(a, b, i);
      OrAt(b, c, i);
      OrAt(Or(a, b), c, i);
      OrAt(a, Or(b, c), i);
    }
    BitsDecide(Or(Or(a, b), c), Or(a, Or(b, c)));
  }

  lemma OffsetAdded(base: bv64, va: bv64)
    ensures WithOffset(base, va) == Or(base, Offset(va)) && Offset(va) == And(va, 0xfff)
  {}

  lemma WholeMask(i: Level)
    ensures And(OffsetMask(i), OffsetMask(i)) == OffsetMask(i)
  {}

  /** The physical address that an aligned leaf at level `i` gives: the page number times 2^12, plus the
      virtual address modulo 2^(12 + 9i). */
  lemma PhysicalAddress(pte: bv64, va: bv64, i: Level)
    requires !Misaligned(pte, i)
    ensures ToNat(WithOffset(PhysBase(pte, va, i), va)) == ToNat(Ppn(pte)) * 4096 + ToNat(va) % Pow2(12 + 9 * i)
  {
    hide ToNat, Ppn, And, Or, Shl, Ones, Frame, VpnPart, OffsetMask, Overlaps, Pow2, WithOffset, Offset;
    var ppn, part := Ppn(pte), VpnPart(va, i);
    AlignedFrame(ppn, va, i);
    OffsetAdded(PhysBase(pte, va, i), va);
    PartAndOffset(va, i);
    OrAgain(Shl(ppn, 12), part, And(va, 0xfff));
    ShiftedPpn(ppn, i);
    WholeMask(i);
    MaskApart(Shl(ppn, 12), va, OffsetMask(i), OffsetMask(i));
    OrAdds(Shl(ppn, 12), And(va, OffsetMask(i)));
    OffsetMaskIs(i);
    OffsetBitsAre(i);
    PpnMasked(pte);
    LowBits(va, OffsetBits(i));
    Powers();
    PpnBound(pte);
    ShlMultiplies(ppn, 12);
  }
}
