/** The operations on words as arithmetic on the numbers they stand for. */
module Numbers {
  import opened Bits
  import opened Memory
  import opened PageTable
  import opened MulDiv
  import opened Isa
  import opened Decoder
  import opened Ordering
  import opened PageArithmetic

  /** A word is determined by its number. */
  lemma IsWord(v: bv64, x: int)
    requires ToNat(v) == x % TWO64
    ensures v == Word(x)
  {
    hide ToNat, Word;
    BelowMeans(v, Word(x));
  }

  lemma CongruentSum(x: int, x': int, y: int, y': int, n: nat)
    requires n > 0 && Congruent(x, x', n) && Congruent(y, y', n)
    ensures Congruent(x + y, x' + y', n) && Congruent(x - y, x' - y', n)
  {
    var k, l := x / n - x' / n, y / n - y' / n;
    assert x == x' + k * n && y == y' + l * n;
    Distributes(k, l, n);
    Shifted(x + y, x' + y', k + l, n);
    Shifted(x - y, x' - y', k - l, n);
  }

  lemma Distributes(k: int, l: int, n: int)
    ensures (k + l) * n == k * n + l * n && (k - l) * n == k * n - l * n
  {}

  lemma SignedMod(a: bv64)
    ensures Signed(a) % TWO64 == ToNat(a)
  {
    hide ToNat, Signed;
    SignedCongruent(a);
    Ranges(a);
    ModUnique(ToNat(a), ToNat(a), 0, TWO64);
  }

  lemma SignedWord(a: bv64)
    ensures a == Word(Signed(a)) && a == Word(ToNat(a))
  {
    hide ToNat, Signed, Word;
    SignedMod(a);
    Ranges(a);
    ModUnique(ToNat(a), ToNat(a), 0, TWO64);
    IsWord(a, Signed(a));
    IsWord(a, ToNat(a));
  }

  // ---- Sums --------------------------------------------------------------------------------------

  lemma NextHalf(v: bv64)
    requires v != 0xffff_ffff_ffff_ffff
    ensures if IsOdd(v) then Half(v + 1) == Half(v) + 1 && !IsOdd(v + 1) else Half(v + 1) == Half(v) && IsOdd(v + 1)
  {}

  lemma AddOneIs(v: bv64)
    ensures Add(v, 1) == v + 1
  {}

  lemma {:induction false} AddOneSmall(v: bv64)
    requires v != 0xffff_ffff_ffff_ffff
    ensures ToNat(Add(v, 1)) == ToNat(v) + 1
    decreases ToNat(v)
  {
    hide ToNat, Half, IsOdd, Add;
    AddOneIs(v);
    AddOneIs(Half(v));
    NextHalf(v);
    ToNatHalf(v);
    ToNatHalf(Add(v, 1));
    if IsOdd(v) {
      HalfNotOnes(v);
      AddOneSmall(Half(v));
    }
  }

  lemma HalfNotOnes(v: bv64)
    ensures Half(v) != 0xffff_ffff_ffff_ffff
  {}

  lemma OnesWrap()
    ensures Add(0xffff_ffff_ffff_ffff, 1) == 0 && ToNat(0xffff_ffff_ffff_ffff) == TWO64 - 1 && ToNat(0) == 0
  {}

  lemma AddOne(v: bv64)
    ensures ToNat(Add(v, 1)) == (ToNat(v) + 1) % TWO64
  {
    hide ToNat, Add;
    OnesWrap();
    Ranges(Add(v, 1));
    if v != 0xffff_ffff_ffff_ffff {
      AddOneSmall(v);
    }
  }

  lemma SubIs(a: bv64, b: bv64)
    ensures Sub(a, b) == a - b
  {}

  lemma AddNone(a: bv64)
    ensures Add(a, 0) == a
  {}

  lemma AddLast(a: bv64, b: bv64)
    ensures Add(a + (b - 1), 1) == Add(a, b) && Add(a, b - 1) == a + (b - 1)
  {}

  lemma AddSteps(a: bv64, b: bv64)
    ensures Add(a, 0) == a && Add(Sub(b, 1), 1) == b && Add(Add(a, Sub(b, 1)), 1) == Add(a, b)
  {
    hide Add, Sub;
    AddNone(a);
    SubIs(b, 1);
    AbsoluteCancels(b, 1);
    AddLast(a, b);
  }

  lemma OneMoreMod(x: int)
    ensures (x % TWO64 + 1) % TWO64 == (x + 1) % TWO64
  {}

  lemma {:induction false} AddMeans(a: bv64, b: bv64)
    ensures ToNat(Add(a, b)) == (ToNat(a) + ToNat(b)) % TWO64
    decreases ToNat(b)
  {
    hide ToNat, Add, Sub;
    AddSteps(a, b);
    OnesWrap();
    Ranges(a);
    Ranges(b);
    if ToNat(b) == 0 {
      OnlyZero(b);
    } else {
      var c := Sub(b, 1);
      LessOne(b);
      AddMeans(a, c);
      AddOne(Add(a, c));
      OneMoreMod(ToNat(a) + ToNat(c));
    }
  }

  lemma LessOne(b: bv64)
    requires ToNat(b) != 0
    ensures ToNat(Sub(b, 1)) + 1 == ToNat(b)
  {
    hide ToNat, Add, Sub;
    AddSteps(0, b);
    AddOne(Sub(b, 1));
    Ranges(b);
    Ranges(Sub(b, 1));
  }

  lemma SubThenAdd(a: bv64, b: bv64)
    ensures Add(Sub(a, b), b) == a
  {
    hide Add, Sub;
    SubIs(a, b);
    AbsoluteCancels(a, b);
  }

  lemma SubMeans(a: bv64, b: bv64)
    ensures ToNat(Sub(a, b)) == (ToNat(a) - ToNat(b)) % TWO64
  {
    hide ToNat, Add, Sub;
    SubThenAdd(a, b);
    AddMeans(Sub(a, b), b);
    Ranges(a);
    Ranges(b);
    Ranges(Sub(a, b));
    var d := ToNat(Sub(a, b));
    if d + ToNat(b) < TWO64 {
      ModUnique(d + ToNat(b), d + ToNat(b), 0, TWO64);
      ModUnique(ToNat(a) - ToNat(b), d, 0, TWO64);
    } else {
      ModUnique(d + ToNat(b), d + ToNat(b) - TWO64, 1, TWO64);
      ModUnique(ToNat(a) - ToNat(b), d, -1, TWO64);
    }
  }

  /** add, addi and the addresses of loads and stores. */
  lemma Sum(a: bv64, b: bv64)
    ensures Add(a, b) == Word(Signed(a) + Signed(b)) && Sub(a, b) == Word(Signed(a) - Signed(b))
  {
    hide ToNat, Add, Sub, Signed, Word;
    AddMeans(a, b);
    SubMeans(a, b);
    SignedCongruent(a);
    SignedCongruent(b);
    CongruentSum(Signed(a), ToNat(a), Signed(b), ToNat(b), TWO64);
    IsWord(Add(a, b), Signed(a) + Signed(b));
    IsWord(Sub(a, b), Signed(a) - Signed(b));
  }

  lemma {:induction false} Pow2Sum(a: nat, b: nat)
    ensures Pow2(a + b) == Pow2(a) * Pow2(b)
    decreases a
  {
    if a > 0 {
      Pow2Sum(a - 1, b);
      assert Pow2(a + b) == 2 * (Pow2(a - 1) * Pow2(b));
    }
  }

  // ---- Shifts --------------------------------------------------------------------------------------

  lemma ShlOneIs(v: bv64)
    ensures Shl(v, 1) == Add(v, v)
  {}

  lemma DoubleMod(x: int)
    ensures 2 * (x % TWO64) % TWO64 == 2 * x % TWO64
  {}

  lemma Grouped(x: int, p: int)
    ensures x * (2 * p) == 2 * (x * p)
  {}

  lemma {:induction false} ShlMeans(v: bv64, n: BitIndex)
    ensures ToNat(Shl(v, n)) == ToNat(v) * Pow2(ToNat(n)) % TWO64
    decreases n
  {
    hide ToNat, Shl, OneLess, Add;
    NoneLow();
    if n == 0 {
      ShlNone(v);
      Ranges(v);
      ModUnique(ToNat(v), ToNat(v), 0, TWO64);
    } else {
      OneMore(n);
      ShlPlace(v, n);
      ShlMeans(v, OneLess(n));
      var u := Shl(v, OneLess(n));
      ShlOneIs(u);
      AddMeans(u, u);
      DoubleMod(ToNat(v) * Pow2(ToNat(OneLess(n))));
      Grouped(ToNat(v), Pow2(ToNat(OneLess(n))));
    }
  }

  lemma ShrOneIs(v: bv64)
    ensures Shr(v, 1) == Half(v)
  {}

  lemma HalfQuotient(x: nat, p: nat, b: nat)
    requires p > 0 && b < 2
    ensures (2 * x + b) / 2 == x
    ensures x / p / 2 == x / (2 * p)
  {
    Division(x, p);
    Division(x / p, 2);
    assert x == (x / p / 2) * (2 * p) + ((x / p) % 2) * p + x % p;
    ModUnique(x, ((x / p) % 2) * p + x % p, x / p / 2, 2 * p);
  }

  lemma {:induction false} ShrMeans(v: bv64, n: BitIndex)
    ensures ToNat(Shr(v, n)) == ToNat(v) / Pow2(ToNat(n))
    decreases n
  {
    hide ToNat, Shr, OneLess, Half, IsOdd;
    NoneLow();
    if n == 0 {
      ShrNone(v);
    } else {
      OneMore(n);
      ShrPlace(v, n);
      ShrMeans(v, OneLess(n));
      var u := Shr(v, OneLess(n));
      ShrOneIs(u);
      ToNatHalf(u);
      HalfQuotient(ToNat(Half(u)), 1, LowBit(u));
      HalfQuotient(ToNat(v), Pow2(ToNat(OneLess(n))), 0);
    }
  }

  lemma FirstBitIs(v: bv64)
    ensures ReadBit(v, 0) == IsOdd(v)
  {}

  lemma ZeroPlus(n: BitIndex)
    ensures Plus(0, n) == n
  {}

  lemma OddNumber(v: bv64)
    ensures IsOdd(v) <==> ToNat(v) % 2 == 1
  {
    hide ToNat, IsOdd, Half;
    ToNatHalf(v);
  }

  /** A bit of a word is the binary digit of its number. */
  lemma BitMeans(v: bv64, n: BitIndex)
    ensures ReadBit(v, n) <==> ToNat(v) / Pow2(ToNat(n)) % 2 == 1
  {
    hide ToNat, Shr, ReadBit, Plus, IsOdd, Pow2;
    ShrAt(v, n, 0);
    ZeroPlus(n);
    FirstBitIs(Shr(v, n));
    ShrMeans(v, n);
    OddNumber(Shr(v, n));
  }

  lemma NotIs(v: bv64)
    ensures Not(v) == Sub(0xffff_ffff_ffff_ffff, v)
  {}

  lemma NotMeans(v: bv64)
    ensures ToNat(Not(v)) == TWO64 - 1 - ToNat(v)
  {
    hide ToNat, Not, Sub;
    NotIs(v);
    OnesWrap();
    SubMeans(0xffff_ffff_ffff_ffff, v);
    Ranges(v);
    ModUnique(TWO64 - 1 - ToNat(v), TWO64 - 1 - ToNat(v), 0, TWO64);
  }

  lemma SignIs(v: bv64)
    ensures v & 0x8000_0000_0000_0000 != 0 <==> Signed(v) < 0
  {
    hide ToNat;
    if v & 0x8000_0000_0000_0000 == 0 {
      FlipUp(v);
    } else {
      FlipDown(v);
      Ranges(Flip(v));
    }
  }

  lemma SraIs(v: bv64, n: BitIndex)
    ensures Sra(v, n) == if Signed(v) < 0 then Not(Shr(Not(v), n)) else Shr(v, n)
  {
    hide Not, Shr, Signed;
    SignIs(v);
  }

  /** Rounding down a negative quotient. */
  lemma FloorNegative(s: int, p: nat)
    requires p > 0
    ensures s / p == -1 - (-1 - s) / p
  {
    var q, t := (-1 - s) / p, (-1 - s) % p;
    assert -1 - s == q * p + t;
    assert s == (-1 - q) * p + (p - 1 - t);
    ModUnique(s, p - 1 - t, -1 - q, p);
  }

  /** An arithmetic shift divides and rounds down. */
  lemma SraMeans(v: bv64, n: BitIndex)
    ensures Sra(v, n) == Word(Signed(v) / Pow2(ToNat(n)))
  {
    hide ToNat, Shr, Not, Sra, Word, Signed;
    SraIs(v, n);
    var p := Pow2(ToNat(n));
    Ranges(v);
    SignedSplit(v);
    if Signed(v) < 0 {
      NotMeans(v);
      ShrMeans(Not(v), n);
      NotMeans(Shr(Not(v), n));
      FloorNegative(Signed(v), p);
      NegativeWord(Sra(v, n), ToNat(Shr(Not(v), n)));
    } else {
      ShrMeans(v, n);
      SignedWord(Sra(v, n));
    }
  }

  lemma SignedSplit(v: bv64)
    ensures Signed(v) == if Signed(v) < 0 then ToNat(v) - TWO64 else ToNat(v)
  {
    hide ToNat;
    Ranges(v);
  }

  lemma NegativeWord(v: bv64, q: nat)
    requires ToNat(v) == TWO64 - 1 - q
    ensures v == Word(-1 - q)
  {
    hide ToNat, Word;
    ModUnique(-1 - q, ToNat(v), -1, TWO64);
    IsWord(v, -1 - q);
  }

  // ---- Sign extension ----------------------------------------------------------------------------------

  /** The upper half of a remainder. */
  lemma TopDigit(u: nat, q: nat)
    requires q > 0
    ensures u / q % 2 == 1 <==> u % (2 * q) >= q
  {
    var k, b, t := u / q / 2, u / q % 2, u % q;
    Division(u, q);
    assert u == k * (2 * q) + (b * q + t);
    if b == 1 {
      ModUnique(u, q + t, k, 2 * q);
    } else {
      ModUnique(u, t, k, 2 * q);
    }
  }

  /** A word whose bits from `n` on repeat bit `n - 1`. */
  lemma Extended(v: bv64, n: BitIndex, m: BitIndex, high: bv64, w: bv64)
    requires Pow2(ToNat(n)) == 2 * Pow2(ToNat(m)) && ToNat(high) == TWO64 - Pow2(ToNat(n)) && And(Ones(n), high) == 0
    requires w == if ReadBit(v, m) then Or(v, high) else And(v, Ones(n))
    requires Or(Ones(n), high) == 0xffff_ffff_ffff_ffff
    ensures w == Word(Wrap(ToNat(v), Pow2(ToNat(n))))
  {
    hide ToNat, ReadBit, Or, And, Ones, Word, Pow2;
    var p, u := Pow2(ToNat(n)), ToNat(v);
    LowBits(v, n);
    BitMeans(v, m);
    TopDigit(u, Pow2(ToNat(m)));
    if ReadBit(v, m) {
      FilledUp(v, Ones(n), high);
      OrAdds(And(v, Ones(n)), high);
      NegativeWord(w, p - 1 - u % p);
    } else {
      SignedWord(w);
    }
  }

  /** Setting the bits of a mask sets them above what the other bits are. */
  lemma FilledUp(v: bv64, low: bv64, high: bv64)
    requires And(low, high) == 0 && Or(low, high) == 0xffff_ffff_ffff_ffff
    ensures Or(v, high) == Or(And(v, low), high) && And(And(v, low), high) == 0
  {
    hide ReadBit, Or, And;
    forall i: BitIndex
      ensures ReadBit(Or(v, high), i) == ReadBit(Or(And(v, low), high), i)
      ensures ReadBit(And(And(v, low), high), i) == ReadBit(0, i)
    {
      AllBits(i);
      OrAt(low, high, i);
      MaskedAt(low, high, i);
      MaskedAt(v, low, i);
      OrAt(v, high, i);
      OrAt(And(v, low), high, i);
      MaskedAt(And(v, low), high, i);
    }
    BitsDecide(Or(v, high), Or(And(v, low), high));
    BitsDecide(And(And(v, low), high), 0);
  }

  lemma AllBits(i: BitIndex)
    ensures ReadBit(0xffff_ffff_ffff_ffff, i) && !ReadBit(0, i)
  {}

  lemma Parts8(v: bv64)
    ensures Sext8(v) == if ReadBit(v, 7) then Or(v, 0xffff_ffff_ffff_ff00) else And(v, Ones(8))
    ensures And(Ones(8), 0xffff_ffff_ffff_ff00) == 0 && Or(Ones(8), 0xffff_ffff_ffff_ff00) == 0xffff_ffff_ffff_ffff
    ensures ToNat(0xffff_ffff_ffff_ff00) == TWO64 - 0x100 && ToNat(8) == 8 && ToNat(7) == 7
  {}

  lemma Parts16(v: bv64)
    ensures Sext16(v) == if ReadBit(v, 15) then Or(v, 0xffff_ffff_ffff_0000) else And(v, Ones(16))
    ensures And(Ones(16), 0xffff_ffff_ffff_0000) == 0 && Or(Ones(16), 0xffff_ffff_ffff_0000) == 0xffff_ffff_ffff_ffff
    ensures ToNat(0xffff_ffff_ffff_0000) == TWO64 - 0x1_0000 && ToNat(16) == 16 && ToNat(15) == 15
  {}

  lemma Parts32(v: bv64)
    ensures Sext32(v) == if ReadBit(v, 31) then Or(v, 0xffff_ffff_0000_0000) else And(v, Ones(32))
    ensures And(Ones(32), 0xffff_ffff_0000_0000) == 0 && Or(Ones(32), 0xffff_ffff_0000_0000) == 0xffff_ffff_ffff_ffff
    ensures ToNat(0xffff_ffff_0000_0000) == TWO64 - TWO32 && ToNat(32) == 32 && ToNat(31) == 31
  {}

  lemma WordPowers()
    ensures Pow2(0) == 1 && Pow2(7) == 0x80 && Pow2(8) == 0x100 && Pow2(15) == 0x8000 && Pow2(16) == 0x1_0000
    ensures Pow2(31) == 0x8000_0000 && Pow2(32) == TWO32
  {
    assert Pow2(4) == 16;
    Pow2Sum(4, 3);
    Pow2Sum(8, 7);
    Pow2Sum(8, 8);
    Pow2Sum(16, 15);
    Pow2Sum(16, 16);
  }

  /** The sign extensions are two's complement. */
  lemma Sext8Means(v: bv64)
    ensures Sext8(v) == Word(Wrap(ToNat(v), 0x100))
  {
    hide ToNat, Sext8, ReadBit, Or, And, Ones, Word, Pow2;
    WordPowers();
    Parts8(v);
    Extended(v, 8, 7, 0xffff_ffff_ffff_ff00, Sext8(v));
  }

  lemma Sext16Means(v: bv64)
    ensures Sext16(v) == Word(Wrap(ToNat(v), 0x1_0000))
  {
    hide ToNat, Sext16, ReadBit, Or, And, Ones, Word, Pow2;
    WordPowers();
    Parts16(v);
    Extended(v, 16, 15, 0xffff_ffff_ffff_0000, Sext16(v));
  }

  lemma Sext32Means(v: bv64)
    ensures Sext32(v) == Word(Signed32(v))
  {
    hide ToNat, Sext32, ReadBit, Or, And, Ones, Word, Pow2;
    WordPowers();
    Parts32(v);
    Extended(v, 32, 31, 0xffff_ffff_0000_0000, Sext32(v));
  }

  // ---- Bitwise operations --------------------------------------------------------------------------------

  datatype BitOp = Exclusive | Inclusive | Both

  function Digit(op: BitOp, a: nat, b: nat): nat
  {
    match op
    case Exclusive => (a + b) % 2
    case Inclusive => if a + b == 0 then 0 else 1
    case Both => a * b
  }

  /** The operation on each pair of binary digits. */
  function Bitwise(op: BitOp, x: nat, y: nat): nat
    decreases x + y
  {
    if x + y == 0 then 0 else 2 * Bitwise(op, x / 2, y / 2) + Digit(op, x % 2, y % 2)
  }

  lemma NextDigit(op: BitOp, x: nat, y: nat, a: nat, b: nat)
    requires a < 2 && b < 2 && 2 * x + a + (2 * y + b) > 0
    ensures Bitwise(op, 2 * x + a, 2 * y + b) == 2 * Bitwise(op, x, y) + Digit(op, a, b)
  {
    hide Digit;
  }

  function Combined(op: BitOp, a: bv64, b: bv64): bv64
  {
    match op
    case Exclusive => Xor(a, b)
    case Inclusive => Or(a, b)
    case Both => And(a, b)
  }

  lemma HalfOfXor(a: bv64, b: bv64)
    ensures Half(Xor(a, b)) == Xor(Half(a), Half(b)) && IsOdd(Xor(a, b)) == (IsOdd(a) != IsOdd(b))
  {}

  lemma HalfOfCombined(op: BitOp, a: bv64, b: bv64)
    ensures Half(Combined(op, a, b)) == Combined(op, Half(a), Half(b))
    ensures LowBit(Combined(op, a, b)) == Digit(op, LowBit(a), LowBit(b))
  {
    hide Half, IsOdd, Xor, Or, And;
    HalfOfXor(a, b);
    HalfOfOr(a, b);
    HalfOfAnd(a, b);
  }

  lemma NothingCombined(op: BitOp)
    ensures Combined(op, 0, 0) == 0 && ToNat(0) == 0
  {}

  lemma {:induction false} BitwiseMeans(op: BitOp, a: bv64, b: bv64)
    ensures ToNat(Combined(op, a, b)) == Bitwise(op, ToNat(a), ToNat(b))
    decreases ToNat(a) + ToNat(b)
  {
    hide ToNat, Half, LowBit, Combined, Digit;
    NothingCombined(op);
    if ToNat(a) + ToNat(b) == 0 {
      NoBits(a);
      NoBits(b);
    } else {
      DigitBelow(a);
      DigitBelow(b);
      HalfOfCombined(op, a, b);
      ToNatHalf(a);
      ToNatHalf(b);
      ToNatHalf(Combined(op, a, b));
      BitwiseMeans(op, Half(a), Half(b));
      NextDigit(op, ToNat(Half(a)), ToNat(Half(b)), LowBit(a), LowBit(b));
    }
  }

  lemma DigitBelow(a: bv64)
    ensures LowBit(a) < 2
  {}
}
