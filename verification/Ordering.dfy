/** What the comparisons of the emulator mean on numbers, and the minimum and maximum AMOs. */
module Ordering {
  import opened Memory
  import opened PageTable
  import opened MulDiv
  import opened Isa
  import opened Decoder
  import opened Atomics

  // ---- Words bit by bit ---------------------------------------------------------------------------

  function Half(v: bv64): bv64 { v >> 1 }
  function Twice(h: bv64): bv64 { h << 1 }
  function TwicePlus(h: bv64): bv64 { (h << 1) | 1 }
  predicate IsOdd(v: bv64) { v & 1 != 0 }
  predicate TopClear(v: bv64) { v & 0x8000_0000_0000_0000 == 0 }

  lemma Halved(v: bv64)
    ensures v == if IsOdd(v) then TwicePlus(Half(v)) else Twice(Half(v))
  {}

  lemma HalfTop(v: bv64)
    ensures TopClear(Half(v))
  {}

  function LowBit(v: bv64): nat { if IsOdd(v) then 1 else 0 }

  lemma ToNatDoubled(h: bv64)
    requires TopClear(h)
    ensures ToNat(Twice(h)) == 2 * ToNat(h) && ToNat(TwicePlus(h)) == 2 * ToNat(h) + 1
  {
    hide ToNat;
    FlipUp(h);
    Doubled(h);
  }

  lemma ToNatHalf(v: bv64)
    ensures ToNat(v) == 2 * ToNat(Half(v)) + LowBit(v)
  {
    hide ToNat, Half, IsOdd, TopClear, Twice, TwicePlus;
    HalfTop(v);
    ToNatDoubled(Half(v));
    Halved(v);
  }

  lemma DoubledBelow(h: bv64, k: bv64)
    requires TopClear(h) && TopClear(k)
    ensures Isa.Below(h << 1, k << 1) == Isa.Below(h, k)
    ensures Isa.Below((h << 1) | 1, (k << 1) | 1) == Isa.Below(h, k)
    ensures Isa.Below((h << 1) | 1, k << 1) == Isa.Below(h, k)
  {}

  lemma DoubledNext(h: bv64)
    ensures Isa.Below(h << 1, (h << 1) | 1)
  {}

  lemma BelowDoubled(h: bv64, k: bv64)
    requires TopClear(h) && TopClear(k)
    ensures Isa.Below(Twice(h), Twice(k)) == Isa.Below(h, k) && Isa.Below(TwicePlus(h), TwicePlus(k)) == Isa.Below(h, k)
    ensures Isa.Below(TwicePlus(h), Twice(k)) == Isa.Below(h, k) && Isa.Below(Twice(h), TwicePlus(h))
  {
    hide Isa.Below, TopClear;
    DoubledBelow(h, k);
    DoubledNext(h);
  }

  lemma BelowTrans(a: bv64, b: bv64, c: bv64)
    requires Isa.Below(a, b) && Isa.Below(b, c)
    ensures Isa.Below(a, c)
  {}

  lemma BelowAsym(a: bv64, b: bv64)
    ensures !(Isa.Below(a, b) && Isa.Below(b, a))
  {}

  /** The order of two words from the order of their halves, which are known to be ordered. */
  lemma BelowHalves(v: bv64, w: bv64)
    requires Isa.Below(Half(v), Half(w)) || Half(v) == Half(w) || Isa.Below(Half(w), Half(v))
    ensures Isa.Below(v, w) ==
            if !IsOdd(v) && IsOdd(w) then !Isa.Below(Half(w), Half(v)) else Isa.Below(Half(v), Half(w))
  {
    hide Isa.Below, Half, IsOdd, TopClear, Twice, TwicePlus;
    HalfTop(v);
    HalfTop(w);
    Halved(v);
    Halved(w);
    var h, k := Half(v), Half(w);
    BelowDoubled(h, k);
    BelowDoubled(k, h);
    BelowAsym(v, w);
    BelowAsym(h, k);
    if Isa.Below(Twice(h), Twice(k)) {
      BelowTrans(Twice(h), Twice(k), TwicePlus(k));
    }
  }

  lemma SameHalves(v: bv64, w: bv64)
    ensures Half(v) == Half(w) && IsOdd(v) == IsOdd(w) ==> v == w
  {
    hide Half, IsOdd, Twice, TwicePlus;
    Halved(v);
    Halved(w);
  }

  /** sltu, bltu and bgeu compare unsigned numbers. */
  lemma {:induction false} BelowMeans(v: bv64, w: bv64)
    ensures Isa.Below(v, w) <==> ToNat(v) < ToNat(w)
    ensures v == w <==> ToNat(v) == ToNat(w)
    decreases ToNat(v) + ToNat(w)
  {
    hide ToNat, Isa.Below, Half, IsOdd;
    if ToNat(v) + ToNat(w) == 0 {
      OnlyZero(v);
      OnlyZero(w);
    } else {
      ToNatHalf(v);
      ToNatHalf(w);
      BelowMeans(Half(v), Half(w));
      BelowMeans(Half(w), Half(v));
      BelowHalves(v, w);
      SameHalves(v, w);
    }
  }

  lemma OnlyZero(v: bv64)
    requires ToNat(v) == 0
    ensures v == 0 && !Isa.Below(v, 0)
  {}

  lemma FlipMeans(v: bv64)
    ensures ToNat(Flip(v)) == Signed(v) + TWO63
  {
    hide ToNat, Flip;
    if v & 0x8000_0000_0000_0000 == 0 {
      FlipUp(v);
    } else {
      FlipDown(v);
    }
  }

  lemma FlipUp(v: bv64)
    requires v & 0x8000_0000_0000_0000 == 0
    ensures ToNat(Flip(v)) == ToNat(v) + TWO63 && ToNat(v) < TWO63
  {
    FlipUpBits(v, ToNat(v));
  }

  lemma FlipUpBits(v: bv64, n: nat)
    requires v & 0x8000_0000_0000_0000 == 0 && n == v as nat
    ensures (v ^ 0x8000_0000_0000_0000) as nat == n + TWO63 && n < TWO63
  {}

  lemma FlipDown(v: bv64)
    requires v & 0x8000_0000_0000_0000 != 0
    ensures ToNat(v) == ToNat(Flip(v)) + TWO63 && ToNat(v) < TWO64
  {
    FlipDownBits(v, ToNat(v));
  }

  lemma FlipDownBits(v: bv64, n: nat)
    requires v & 0x8000_0000_0000_0000 != 0 && n == v as nat
    ensures n == (v ^ 0x8000_0000_0000_0000) as nat + TWO63 && n < TWO64
  {}

  /** slt, blt and bge compare signed numbers. */
  lemma BelowSignedMeans(v: bv64, w: bv64)
    ensures BelowSigned(v, w) <==> Signed(v) < Signed(w)
  {
    hide ToNat, Signed, Flip, Isa.Below;
    BelowMeans(Flip(v), Flip(w));
    FlipMeans(v);
    FlipMeans(w);
  }

  function Min(x: int, y: int): int { if x < y then x else y }

  function Max(x: int, y: int): int { if x < y then y else x }

  /** amomin, amomax, amominu and amomaxu on 64 bits store the extreme of the operands. */
  lemma AmoExtremes(a: bv64, b: bv64)
    ensures Signed(AmoValue(0x10, 8, a, b)) == Min(Signed(a), Signed(b))
    ensures Signed(AmoValue(0x14, 8, a, b)) == Max(Signed(a), Signed(b))
    ensures ToNat(AmoValue(0x18, 8, a, b)) == Min(ToNat(a), ToNat(b))
    ensures ToNat(AmoValue(0x1c, 8, a, b)) == Max(ToNat(a), ToNat(b))
  {
    hide ToNat, Signed, BelowSigned, Isa.Below;
    BelowSignedMeans(a, b);
    BelowSignedMeans(b, a);
    BelowMeans(a, b);
    BelowMeans(b, a);
  }

  /** Their 32-bit forms do so on the low halves of the operands. */
  lemma AmoWordExtremes(a: bv64, b: bv64)
    ensures Signed(AmoValue(0x10, 4, a, b)) == Min(Signed(Sext32(a)), Signed(Sext32(b)))
    ensures Signed(AmoValue(0x14, 4, a, b)) == Max(Signed(Sext32(a)), Signed(Sext32(b)))
    ensures ToNat(AmoValue(0x18, 4, a, b)) == Min(ToNat(Low(a, 4)), ToNat(Low(b, 4)))
    ensures ToNat(AmoValue(0x1c, 4, a, b)) == Max(ToNat(Low(a, 4)), ToNat(Low(b, 4)))
  {
    hide ToNat, Signed, BelowSigned, Isa.Below, Sext32, Low;
    BelowSignedMeans(Sext32(a), Sext32(b));
    BelowSignedMeans(Sext32(b), Sext32(a));
    BelowMeans(Low(a, 4), Low(b, 4));
    BelowMeans(Low(b, 4), Low(a, 4));
  }
}
