/** The bit helpers of the emulator on 64-bit words (helper.cpp). */
module Bits {

  type BitIndex = i: bv64 | i < 64 witness 0

  predicate ReadBit(v: bv64, i: BitIndex) { v & (1 << i) != 0 }

  function WriteBit(v: bv64, i: BitIndex, b: bool): bv64
  {
    if b then v | (1 << i) else v & !(1 << i)
  }

  function And(v: bv64, mask: bv64): bv64 { v & mask }

  function Or(v: bv64, w: bv64): bv64 { v | w }

  function Not(v: bv64): bv64 { !v }

  /** Bit 0 cleared. */
  function Even(v: bv64): bv64 { v & 0xffff_ffff_ffff_fffe }

  function Shl(v: bv64, n: BitIndex): bv64 { v << n }

  function Shr(v: bv64, n: BitIndex): bv64 { v >> n }

  /** All ones in the low `n` bits. */
  function Ones(n: BitIndex): bv64 { (1 << n) - 1 }

  predicate IsField(hi: BitIndex, lo: BitIndex) { lo <= hi && hi - lo < 63 }

  function FieldWidth(hi: BitIndex, lo: BitIndex): BitIndex
    requires IsField(hi, lo)
  {
    hi - lo + 1
  }

  /** Bits `hi` down to `lo`; never used on all 64 at once. */
  function ReadBits(v: bv64, hi: BitIndex, lo: BitIndex): bv64
    requires IsField(hi, lo)
  {
    And(Shr(v, lo), Ones(FieldWidth(hi, lo)))
  }

  /** The value is not masked: bits that do not fit the field spill over. */
  function WriteBits(v: bv64, hi: BitIndex, lo: BitIndex, x: bv64): bv64
    requires IsField(hi, lo)
  {
    Or(And(v, Not(Shl(Ones(FieldWidth(hi, lo)), lo))), Shl(x, lo))
  }

  lemma BitWritten(v: bv64, i: BitIndex, b: bool)
    ensures ReadBit(WriteBit(v, i, b), i) == b
  {}

  lemma BitKept(v: bv64, i: BitIndex, b: bool, j: BitIndex)
    requires i != j
    ensures ReadBit(WriteBit(v, i, b), j) == ReadBit(v, j)
  {
    if b {
      SetElsewhere(v, i, j);
    } else {
      ClearElsewhere(v, i, j);
    }
  }

  lemma SetElsewhere(v: bv64, i: bv64, j: bv64)
    requires i < 64 && j < 64 && i != j
    ensures (v | (1 << i)) & (1 << j) == v & (1 << j)
  {}

  lemma ClearElsewhere(v: bv64, i: bv64, j: bv64)
    requires i < 64 && j < 64 && i != j
    ensures (v & !(1 << i)) & (1 << j) == v & (1 << j)
  {}

  // ---- Single bits of combined words ------------------------------------------------------

  lemma MaskedAt(v: bv64, mask: bv64, j: BitIndex)
    ensures ReadBit(And(v, mask), j) == (ReadBit(v, j) && ReadBit(mask, j))
  {
    hide ReadBit;
    MaskedBit(v, mask, j);
  }

  lemma MaskedBit(v: bv64, mask: bv64, j: BitIndex)
    ensures ReadBit(v & mask, j) == (ReadBit(v, j) && ReadBit(mask, j))
  {}

  lemma OrAt(v: bv64, w: bv64, j: BitIndex)
    ensures ReadBit(Or(v, w), j) == (ReadBit(v, j) || ReadBit(w, j))
  {
    hide ReadBit;
    if ReadBit(w, j) {
      OrUnder(v, w, j);
    } else {
      OrBeside(v, w, j);
    }
  }

  lemma OrUnder(v: bv64, w: bv64, j: BitIndex)
    requires ReadBit(w, j)
    ensures ReadBit(v | w, j)
  {}

  lemma OrBeside(v: bv64, w: bv64, j: BitIndex)
    requires !ReadBit(w, j)
    ensures ReadBit(v | w, j) == ReadBit(v, j)
  {}

  lemma NotAt(v: bv64, j: BitIndex)
    ensures ReadBit(Not(v), j) == !ReadBit(v, j)
  {
    hide ReadBit;
    NotBit(v, j);
  }

  lemma NotBit(v: bv64, j: BitIndex)
    ensures ReadBit(!v, j) == !ReadBit(v, j)
  {}

  predicate AtMost(a: bv64, b: bv64) { a <= b }

  lemma OnesAt(n: BitIndex, j: BitIndex)
    ensures ReadBit(Ones(n), j) == !AtMost(n, j)
  {}

  /** A value that fits in `n` bits has no bit from `n` on. */
  lemma FitAt(x: bv64, n: BitIndex, j: BitIndex)
    requires AtMost(x, Ones(n)) && AtMost(n, j)
    ensures !ReadBit(x, j)
  {
    hide ReadBit, Ones, AtMost;
    Fits(x, n);
    OnesAt(n, j);
    MaskedAt(x, Ones(n), j);
  }

  lemma Fits(x: bv64, n: BitIndex)
    requires AtMost(x, Ones(n))
    ensures And(x, Ones(n)) == x
  {}

  // ---- Shifts, one place at a time -----------------------------------------------------------

  function OneLess(n: bv64): bv64 { n - 1 }

  function Minus(i: bv64, n: bv64): bv64 { i - n }

  function Plus(i: bv64, n: bv64): bv64 { i + n }

  lemma OneLessIsIndex(n: BitIndex)
    requires n != 0
    ensures OneLess(n) < 63 && OneLess(n) + 1 == n && OneLess(n) < n
  {}

  lemma ShlPlaceA(x: bv64, m: bv64)
    requires m < 8
    ensures Shl(x, m + 1) == Shl(Shl(x, m), 1)
  {}

  lemma ShlPlaceB(x: bv64, m: bv64)
    requires 8 <= m < 16
    ensures Shl(x, m + 1) == Shl(Shl(x, m), 1)
  {}

  lemma ShlPlaceC(x: bv64, m: bv64)
    requires 16 <= m < 32
    ensures Shl(x, m + 1) == Shl(Shl(x, m), 1)
  {}

  lemma ShlPlaceD(x: bv64, m: bv64)
    requires 32 <= m < 63
    ensures Shl(x, m + 1) == Shl(Shl(x, m), 1)
  {}

  lemma ShlPlace(x: bv64, n: BitIndex)
    requires n != 0
    ensures OneLess(n) < 64 && Shl(x, n) == Shl(Shl(x, OneLess(n)), 1)
  {
    hide Shl, OneLess;
    OneLessIsIndex(n);
    var m := OneLess(n);
    if m < 8 {
      ShlPlaceA(x, m);
    } else if m < 16 {
      ShlPlaceB(x, m);
    } else if m < 32 {
      ShlPlaceC(x, m);
    } else {
      ShlPlaceD(x, m);
    }
  }

  lemma ShlOne(x: bv64, i: BitIndex)
    ensures i != 0 ==> OneLess(i) < 64
    ensures ReadBit(Shl(x, 1), i) == (i != 0 && ReadBit(x, OneLess(i)))
  {}

  lemma ShlNone(x: bv64)
    ensures Shl(x, 0) == x
  {}

  lemma FromZero(i: BitIndex)
    ensures AtMost(0, i) && Minus(i, 0) == i && (i != 0 ==> !AtMost(i, 0))
  {}

  lemma SameDistance(i: BitIndex, n: BitIndex)
    requires n != 0 && i != 0
    ensures Minus(OneLess(i), OneLess(n)) == Minus(i, n) && AtMost(OneLess(n), OneLess(i)) == AtMost(n, i)
  {}

  lemma MinusIsIndex(i: BitIndex, n: BitIndex)
    requires AtMost(n, i)
    ensures Minus(i, n) < 64
  {}

  /** Bit `i` of a word shifted left by `n` is bit `i - n` of the word. */
  lemma {:induction false} ShlAt(x: bv64, n: BitIndex, i: BitIndex)
    ensures AtMost(n, i) ==> Minus(i, n) < 64
    ensures ReadBit(Shl(x, n), i) == (AtMost(n, i) && ReadBit(x, Minus(i, n)))
    decreases n
  {
    hide ReadBit, Shl, OneLess, Minus, AtMost;
    if AtMost(n, i) {
      MinusIsIndex(i, n);
    }
    FromZero(i);
    FromZero(n);
    if n == 0 {
      ShlNone(x);
    } else {
      ShlPlace(x, n);
      ShlOne(Shl(x, OneLess(n)), i);
      OneLessIsIndex(n);
      if i != 0 {
        SameDistance(i, n);
        ShlAt(x, OneLess(n), OneLess(i));
      }
    }
  }

  lemma ShrPlaceA(x: bv64, m: bv64)
    requires m < 8
    ensures Shr(x, m + 1) == Shr(Shr(x, m), 1)
  {}

  lemma ShrPlaceB(x: bv64, m: bv64)
    requires 8 <= m < 16
    ensures Shr(x, m + 1) == Shr(Shr(x, m), 1)
  {}

  lemma ShrPlaceC(x: bv64, m: bv64)
    requires 16 <= m < 32
    ensures Shr(x, m + 1) == Shr(Shr(x, m), 1)
  {}

  lemma ShrPlaceD(x: bv64, m: bv64)
    requires 32 <= m < 63
    ensures Shr(x, m + 1) == Shr(Shr(x, m), 1)
  {}

  lemma ShrPlace(x: bv64, n: BitIndex)
    requires n != 0
    ensures OneLess(n) < 64 && Shr(x, n) == Shr(Shr(x, OneLess(n)), 1)
  {
    hide Shr, OneLess;
    OneLessIsIndex(n);
    var m := OneLess(n);
    if m < 8 {
      ShrPlaceA(x, m);
    } else if m < 16 {
      ShrPlaceB(x, m);
    } else if m < 32 {
      ShrPlaceC(x, m);
    } else {
      ShrPlaceD(x, m);
    }
  }

  lemma ShrOne(x: bv64, j: BitIndex)
    ensures j != 63 ==> Plus(j, 1) < 64
    ensures ReadBit(Shr(x, 1), j) == (j != 63 && ReadBit(x, Plus(j, 1)))
  {}

  lemma ShrNone(x: bv64)
    ensures Shr(x, 0) == x
  {}

  lemma PlusZero(j: BitIndex)
    ensures Plus(j, 0) == j
  {}

  lemma PlusShifted(j: BitIndex, n: BitIndex)
    requires n != 0
    ensures j != 63 ==> Plus(Plus(j, 1), OneLess(n)) == Plus(j, n)
    ensures j == 63 ==> !(Plus(j, n) < 64)
  {}

  /** Bit `j` of a word shifted right by `n` is bit `j + n` of the word. */
  lemma {:induction false} ShrAt(x: bv64, n: BitIndex, j: BitIndex)
    ensures ReadBit(Shr(x, n), j) == (Plus(j, n) < 64 && ReadBit(x, Plus(j, n)))
    decreases n
  {
    hide ReadBit, Shr, OneLess, Plus;
    if n == 0 {
      ShrNone(x);
      PlusZero(j);
    } else {
      ShrPlace(x, n);
      ShrOne(Shr(x, OneLess(n)), j);
      OneLessIsIndex(n);
      PlusShifted(j, n);
      if j != 63 {
        ShrAt(x, OneLess(n), Plus(j, 1));
      }
    }
  }

  // ---- Fields -----------------------------------------------------------------------------------

  /** Going down by `lo` keeps the order. */
  lemma {:induction false} SameOrder(i: BitIndex, hi: BitIndex, lo: BitIndex)
    requires AtMost(lo, i) && AtMost(lo, hi)
    ensures AtMost(Minus(i, lo), Minus(hi, lo)) == AtMost(i, hi)
    decreases lo
  {
    hide OneLess, Minus, AtMost;
    FromZero(i);
    FromZero(hi);
    if lo != 0 {
      OneLessIsIndex(lo);
      NotBelow(i, lo);
      NotBelow(hi, lo);
      OneLessIsIndex(i);
      OneLessIsIndex(hi);
      SameDistance(i, lo);
      SameDistance(hi, lo);
      SameDistance(hi, i);
      SameOrder(OneLess(i), OneLess(hi), OneLess(lo));
    }
  }

  lemma NotBelow(i: BitIndex, n: BitIndex)
    requires n != 0 && AtMost(n, i)
    ensures i != 0
  {}

  lemma WidthBounds(hi: BitIndex, lo: BitIndex, k: BitIndex)
    requires IsField(hi, lo)
    ensures AtMost(lo, hi) && (AtMost(FieldWidth(hi, lo), k) <==> !AtMost(k, Minus(hi, lo)))
  {}

  /** Where the bits of a field are. */
  lemma Places(hi: BitIndex, lo: BitIndex, i: BitIndex)
    requires IsField(hi, lo) && AtMost(lo, i)
    ensures Minus(i, lo) < 64 && (AtMost(FieldWidth(hi, lo), Minus(i, lo)) <==> !AtMost(i, hi))
  {
    hide AtMost, Minus, FieldWidth, IsField;
    MinusIsIndex(i, lo);
    WidthBounds(hi, lo, Minus(i, lo));
    SameOrder(i, hi, lo);
  }

  /** Inside the field the bits of a field write are the value's, below it they stay, and above
      it the bits of the value that do not fit are added. */
  lemma FieldAt(v: bv64, hi: BitIndex, lo: BitIndex, x: bv64, i: BitIndex)
    requires IsField(hi, lo)
    ensures AtMost(lo, i) ==> Minus(i, lo) < 64
    ensures ReadBit(WriteBits(v, hi, lo, x), i) ==
            if !AtMost(lo, i) then ReadBit(v, i)
            else if AtMost(i, hi) then ReadBit(x, Minus(i, lo))
            else ReadBit(v, i) || ReadBit(x, Minus(i, lo))
  {
    hide ReadBit, And, Or, Not, Shl, Ones, FieldWidth, Minus, AtMost, IsField;
    var n := FieldWidth(hi, lo);
    var mask := Shl(Ones(n), lo);
    OrAt(And(v, Not(mask)), Shl(x, lo), i);
    MaskedAt(v, Not(mask), i);
    NotAt(mask, i);
    ShlAt(Ones(n), lo, i);
    ShlAt(x, lo, i);
    if AtMost(lo, i) {
      Places(hi, lo, i);
      OnesAt(n, Minus(i, lo));
    }
  }

  /** Every bit of a field write. */
  lemma FieldWritten(v: bv64, hi: BitIndex, lo: BitIndex, x: bv64, i: BitIndex)
    requires IsField(hi, lo)
    ensures ReadBit(WriteBits(v, hi, lo, x), i) ==
            if i < lo then ReadBit(v, i)
            else if i <= hi then ReadBit(x, i - lo)
            else ReadBit(v, i) || ReadBit(x, i - lo)
  {
    hide ReadBit, WriteBits, Ones, FieldWidth, IsField;
    FieldAt(v, hi, lo, x, i);
  }

  /** A field write is local when the value fits the field. */
  lemma BitOutsideField(v: bv64, hi: BitIndex, lo: BitIndex, x: bv64, i: BitIndex)
    requires IsField(hi, lo) && x <= Ones(FieldWidth(hi, lo)) && !(lo <= i <= hi)
    ensures ReadBit(WriteBits(v, hi, lo, x), i) == ReadBit(v, i)
  {
    hide ReadBit, WriteBits, Ones, FieldWidth, IsField, Minus;
    assert AtMost(x, Ones(FieldWidth(hi, lo)));
    FieldAt(v, hi, lo, x, i);
    if lo <= i {
      Places(hi, lo, i);
      FitAt(x, FieldWidth(hi, lo), Minus(i, lo));
    }
  }

  lemma SameHalves(v: bv64, w: bv64)
    requires Shr(v, 1) == Shr(w, 1) && ReadBit(v, 0) == ReadBit(w, 0)
    ensures v == w
  {}

  lemma TopBit(v: bv64)
    ensures Shr(Shr(v, 63), 1) == 0
  {}

  ghost predicate SameBits(v: bv64, w: bv64)
  {
    forall j: BitIndex :: ReadBit(v, j) == ReadBit(w, j)
  }

  lemma FirstBit(v: bv64, w: bv64, n: BitIndex)
    requires SameBits(v, w)
    ensures ReadBit(Shr(v, n), 0) == ReadBit(Shr(w, n), 0)
  {
    hide ReadBit, Shr, Plus;
    ShrAt(v, n, 0);
    ShrAt(w, n, 0);
  }

  lemma {:induction false} SameShifted(v: bv64, w: bv64, n: BitIndex)
    requires SameBits(v, w) && Shr(v, n) == Shr(w, n)
    ensures v == w
    decreases n
  {
    hide ReadBit, Shr, OneLess, SameBits;
    ShrNone(v);
    ShrNone(w);
    if n != 0 {
      OneLessIsIndex(n);
      ShrPlace(v, n);
      ShrPlace(w, n);
      FirstBit(v, w, OneLess(n));
      SameHalves(Shr(v, OneLess(n)), Shr(w, OneLess(n)));
      SameShifted(v, w, OneLess(n));
    }
  }

  /** Words with the same bits are the same. */
  lemma BitsDecide(v: bv64, w: bv64)
    requires SameBits(v, w)
    ensures v == w
  {
    hide ReadBit, Shr, SameBits;
    TopBit(v);
    TopBit(w);
    FirstBit(v, w, 63);
    SameHalves(Shr(v, 63), Shr(w, 63));
    SameShifted(v, w, 63);
  }

  lemma ReadBitsAt(v: bv64, hi: BitIndex, lo: BitIndex, j: BitIndex)
    requires IsField(hi, lo)
    ensures ReadBit(ReadBits(v, hi, lo), j) ==
            (!AtMost(FieldWidth(hi, lo), j) && Plus(j, lo) < 64 && ReadBit(v, Plus(j, lo)))
  {
    hide ReadBit, And, Shr, Ones, FieldWidth, IsField, Plus, AtMost;
    MaskedAt(Shr(v, lo), Ones(FieldWidth(hi, lo)), j);
    ShrAt(v, lo, j);
    OnesAt(FieldWidth(hi, lo), j);
  }

  lemma Within(hi: BitIndex, lo: BitIndex, j: BitIndex)
    requires IsField(hi, lo) && !AtMost(FieldWidth(hi, lo), j)
    ensures Plus(j, lo) < 64 && AtMost(lo, Plus(j, lo)) && AtMost(Plus(j, lo), hi) && Minus(Plus(j, lo), lo) == j
  {}

  /** A field written reads back, cut to its width; a value that fits reads back whole. */
  lemma FieldRead(v: bv64, hi: BitIndex, lo: BitIndex, x: bv64)
    requires IsField(hi, lo)
    ensures ReadBits(WriteBits(v, hi, lo, x), hi, lo) == And(x, Ones(FieldWidth(hi, lo)))
    ensures x <= Ones(FieldWidth(hi, lo)) ==> ReadBits(WriteBits(v, hi, lo, x), hi, lo) == x
  {
    hide ReadBit, ReadBits, WriteBits, Ones, FieldWidth, IsField, Plus, Minus, And;
    if x <= Ones(FieldWidth(hi, lo)) {
      Fits(x, FieldWidth(hi, lo));
    }
    var w := WriteBits(v, hi, lo, x);
    forall j: BitIndex
      ensures ReadBit(ReadBits(w, hi, lo), j) == ReadBit(And(x, Ones(FieldWidth(hi, lo))), j)
    {
      FieldReadAt(v, hi, lo, x, j);
    }
    BitsDecide(ReadBits(w, hi, lo), And(x, Ones(FieldWidth(hi, lo))));
  }

  lemma FieldReadAt(v: bv64, hi: BitIndex, lo: BitIndex, x: bv64, j: BitIndex)
    requires IsField(hi, lo)
    ensures ReadBit(ReadBits(WriteBits(v, hi, lo, x), hi, lo), j) == ReadBit(And(x, Ones(FieldWidth(hi, lo))), j)
  {
    hide ReadBit, ReadBits, WriteBits, Ones, FieldWidth, IsField, Plus, Minus, And, AtMost;
    ReadBitsAt(WriteBits(v, hi, lo, x), hi, lo, j);
    MaskedAt(x, Ones(FieldWidth(hi, lo)), j);
    OnesAt(FieldWidth(hi, lo), j);
    if !AtMost(FieldWidth(hi, lo), j) {
      Within(hi, lo, j);
      FieldAt(v, hi, lo, x, Plus(j, lo));
    }
  }

  /** Writing a bit outside a field leaves the field. */
  lemma FieldKept(v: bv64, hi: BitIndex, lo: BitIndex, i: BitIndex, b: bool)
    requires IsField(hi, lo) && !(lo <= i <= hi)
    ensures ReadBits(WriteBit(v, i, b), hi, lo) == ReadBits(v, hi, lo)
  {
    hide ReadBit, ReadBits, WriteBit, FieldWidth, IsField, Plus, Minus;
    var w := WriteBit(v, i, b);
    forall j: BitIndex
      ensures ReadBit(ReadBits(w, hi, lo), j) == ReadBit(ReadBits(v, hi, lo), j)
    {
      ReadBitsAt(w, hi, lo, j);
      ReadBitsAt(v, hi, lo, j);
      if !AtMost(FieldWidth(hi, lo), j) {
        Within(hi, lo, j);
        BitKept(v, i, b, Plus(j, lo));
      }
    }
    BitsDecide(ReadBits(w, hi, lo), ReadBits(v, hi, lo));
  }

  /** The two-bit field mstatus.MPP, and its value in terms of its bits. */
  lemma FieldOfBits(v: bv64)
    ensures IsField(12, 11) && Ones(FieldWidth(12, 11)) == 3
    ensures ReadBits(v, 12, 11) == if ReadBit(v, 12) then (if ReadBit(v, 11) then 3 else 2)
                                   else (if ReadBit(v, 11) then 1 else 0)
  {}

  // ---- Masked writes -------------------------------------------------------------------

  /** `v` under the mask, `old` elsewhere. */
  function Merge(old_: bv64, v: bv64, mask: bv64): bv64
  {
    (old_ & !mask) | (v & mask)
  }

  lemma MergeInside(o: bv64, v: bv64, mask: bv64)
    ensures And(Merge(o, v, mask), mask) == And(v, mask)
  {
    Inside(o, v, mask, Merge(o, v, mask));
  }

  lemma Inside(o: bv64, v: bv64, m: bv64, w: bv64)
    requires w == (o & !m) | (v & m)
    ensures w & m == v & m
  {}

  lemma MergeOutside(o: bv64, v: bv64, mask: bv64)
    ensures And(Merge(o, v, mask), Not(mask)) == And(o, Not(mask))
  {
    Outside(o, v, mask, Merge(o, v, mask), Not(mask));
  }

  lemma Outside(o: bv64, v: bv64, m: bv64, w: bv64, n: bv64)
    requires w == (o & !m) | (v & m) && n == !m
    ensures w & n == o & n
  {}

  lemma MergeBack(o: bv64, mask: bv64)
    ensures Merge(o, And(o, mask), mask) == o
  {}

  /** A masked write, bit by bit. */
  lemma MergeAt(o: bv64, v: bv64, mask: bv64, j: BitIndex)
    ensures ReadBit(Merge(o, v, mask), j) == if ReadBit(mask, j) then ReadBit(v, j) else ReadBit(o, j)
  {
    if ReadBit(mask, j) {
      MergeUnder(o, v, mask, j);
    } else {
      MergeBeside(o, v, mask, j);
    }
  }

  lemma MergeUnder(o: bv64, v: bv64, mask: bv64, j: bv64)
    requires j < 64 && mask & (1 << j) != 0
    ensures ((o & !mask) | (v & mask)) & (1 << j) == v & (1 << j)
  {}

  lemma MergeBeside(o: bv64, v: bv64, mask: bv64, j: bv64)
    requires j < 64 && !(mask & (1 << j) != 0)
    ensures ((o & !mask) | (v & mask)) & (1 << j) == o & (1 << j)
  {}
}
