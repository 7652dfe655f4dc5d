/** Multiplication and division on registers (mul, mulh, mulhsu, mulhu, div, divu, rem, remu of
    rtypeinsn.cpp; mulw, divw, divuw, remw, remuw of r64insn.cpp). */
module MulDiv {
  import opened Memory
  import opened PageTable

  const TWO32 := 0x1_0000_0000
  const TWO63 := 0x8000_0000_0000_0000
  const TWO128 := TWO64 * TWO64

  /** The low `size` part of a number as a two's complement number. */
  function Wrap(x: int, size: nat): (s: int)
    requires size > 0 && size % 2 == 0
    ensures -(size / 2) <= s < size / 2
  {
    var u := x % size;
    if u < size / 2 then u else u - size
  }

  function Signed(v: bv64): int { Wrap(ToNat(v), TWO64) }

  function Signed32(v: bv64): int { Wrap(ToNat(v), TWO32) }

  lemma Doubled(v: bv64)
    requires ToNat(v) < TWO63
    ensures ToNat(v << 1) == 2 * ToNat(v) && ToNat((v << 1) | 1) == 2 * ToNat(v) + 1
  {
    DoubledBits(v, ToNat(v));
  }

  lemma DoubledBits(v: bv64, n: nat)
    requires n == v as nat && n < TWO63
    ensures (v << 1) as nat == 2 * n && ((v << 1) | 1) as nat == 2 * n + 1
  {}

  /** The word with a given value. */
  function FromNat(x: nat): (v: bv64)
    requires x < TWO64
    ensures ToNat(v) == x
  {
    hide ToNat;
    if x == 0 then Zero(); 0
    else
      var h := FromNat(x / 2);
      Doubled(h);
      if x % 2 == 0 then h << 1 else (h << 1) | 1
  }

  lemma Zero()
    ensures ToNat(0) == 0
  {}

  /** Conversion to a 64-bit register: the low 64 bits in two's complement. */
  function Word(x: int): (v: bv64)
    ensures ToNat(v) == x % TWO64
  {
    hide ToNat;
    FromNat(x % TWO64)
  }

  // ---- The handlers --------------------------------------------------------------------------

  function Mul(a: bv64, b: bv64): bv64 { Word(Signed(a) * Signed(b)) }

  function MulH(a: bv64, b: bv64): bv64 { Word((Signed(a) * Signed(b)) / TWO64) }

  /** The sign-extended operand becomes an unsigned 128-bit number; the product wraps. */
  function MulHSU(a: bv64, b: bv64): bv64
  {
    Word(HighWord((Signed(a) % TWO128) * ToNat(b)))
  }

  function MulHU(a: bv64, b: bv64): bv64 { Word(HighWord(ToNat(a) * ToNat(b))) }

  /** The upper half of an unsigned 128-bit number. */
  function HighWord(x: int): int { (x % TWO128) / TWO64 }

  function MulW(a: bv64, b: bv64): bv64 { Word(Wrap(ToNat(a) * ToNat(b), TWO32)) }

  const ALL_ONES: bv64 := 0xffff_ffff_ffff_ffff

  /** Division truncates toward zero. */
  function TruncDiv(x: int, y: int): int
    requires y != 0
  {
    var q := Abs(x) / Abs(y);
    if (x < 0) == (y < 0) then q else -q
  }

  function TruncRem(x: int, y: int): int
    requires y != 0
  {
    x - TruncDiv(x, y) * y
  }

  function Abs(x: int): nat { if x < 0 then -x else x }

  /** The special case is tested with the least 32-bit number; the one overflow of the
      64-bit division is undefined. */
  function Div(a: bv64, b: bv64): Option<bv64>
  {
    var x, y := Signed(a), Signed(b);
    if y == 0 then Some(ALL_ONES)
    else if x == -0x8000_0000 && y == -1 then Some(a)
    else if x == -TWO63 && y == -1 then None
    else Some(Word(TruncDiv(x, y)))
  }

  function DivU(a: bv64, b: bv64): bv64
  {
    if ToNat(b) == 0 then ALL_ONES else Word(ToNat(a) / ToNat(b))
  }

  function Rem(a: bv64, b: bv64): bv64
  {
    var x, y := Signed(a), Signed(b);
    if y == 0 then a
    else if x == -TWO63 && y == -1 then Word(0)
    else Word(TruncRem(x, y))
  }

  function RemU(a: bv64, b: bv64): bv64
  {
    if ToNat(b) == 0 then a else Word(ToNat(a) % ToNat(b))
  }

  function DivW(a: bv64, b: bv64): bv64
  {
    var x, y := Signed32(a), Signed32(b);
    if y == 0 then ALL_ONES
    else if x == -0x8000_0000 && y == -1 then Word(x)
    else Word(TruncDiv(x, y))
  }

  function DivUW(a: bv64, b: bv64): bv64
  {
    var x, y := ToNat(a) % TWO32, ToNat(b) % TWO32;
    if y == 0 then ALL_ONES else Word(Wrap(x / y, TWO32))
  }

  /** The divisor is the whole register; a zero divisor is undefined. */
  function RemW(a: bv64, b: bv64): Option<bv64>
  {
    var x, y := Signed32(a), Signed(b);
    if y == 0 then None else Some(Word(TruncRem(x, y)))
  }

  /** Both operands are whole registers; a zero divisor is undefined. */
  function RemUW(a: bv64, b: bv64): Option<bv64>
  {
    var x, y := ToNat(a), ToNat(b);
    if y == 0 then None else Some(Word(x % y))
  }

  // ---- Products ------------------------------------------------------------------------------

  lemma Product(k: int, n: int)
    requires k >= 0 && n >= 0
    ensures k * n >= 0
  {}

  /** No nonzero multiple of n lies strictly between -n and n. */
  lemma Multiple(k: int, n: int, d: int)
    requires n > 0 && d == k * n && 0 - n < d < n
    ensures k == 0
  {
    if k > 0 {
      Product(k - 1, n);
    } else if k < 0 {
      Product(-k - 1, n);
    }
  }

  lemma ModUnique(x: int, r: int, k: int, n: nat)
    requires n > 0 && 0 <= r < n && x == k * n + r
    ensures x % n == r && x / n == k
  {
    var q, s := x / n, x % n;
    Multiple(k - q, n, s - r);
  }

  /** Equal up to a multiple of n. */
  ghost predicate Congruent(x: int, y: int, n: nat)
    requires n > 0
  {
    x % n == y % n
  }

  lemma Shifted(x: int, y: int, k: int, n: nat)
    requires n > 0 && x == y + k * n
    ensures Congruent(x, y, n)
  {
    ModUnique(x, y % n, y / n + k, n);
  }

  lemma WrapSmall(x: int, size: nat)
    requires size > 0 && size % 2 == 0 && -(size / 2) <= x < size / 2
    ensures Wrap(x, size) == x
  {
    if x >= 0 {
      ModUnique(x, x, 0, size);
    } else {
      ModUnique(x, x + size, -1, size);
    }
  }

  lemma WrapMod(q: nat)
    requires q < TWO32
    ensures Wrap(q, TWO32) % TWO32 == q
  {}

  lemma WrapCongruent(x: int, y: int, size: nat)
    requires size > 0 && size % 2 == 0 && Congruent(x, y, size)
    ensures Wrap(x, size) == Wrap(y, size)
  {}

  /** Reading back a word as a signed number. */
  lemma WordSigned(x: int)
    ensures Signed(Word(x)) == Wrap(x, TWO64)
    ensures -TWO63 <= x < TWO63 ==> Signed(Word(x)) == x
  {
    hide Word, ToNat;
    assert Congruent(x % TWO64, x, TWO64);
    WrapCongruent(x % TWO64, x, TWO64);
    if -TWO63 <= x < TWO63 {
      WrapSmall(x, TWO64);
    }
  }

  /** The high word of a signed number below 2^127 and its low word make up the number. */
  lemma HighAndLow(x: int)
    requires -TWO63 * TWO64 <= x < TWO63 * TWO64
    ensures Signed(Word(x / TWO64)) * TWO64 + ToNat(Word(x)) == x
  {
    hide Word, ToNat, Signed;
    WordSigned(x / TWO64);
  }

  lemma Bound(x: int, y: int, m: int, n: int)
    requires -m <= x <= m && -n <= y <= n
    ensures -m * n <= x * y <= m * n
  {
    Product(m - x, n + y);
    Product(m + x, n - y);
    Product(m + x, n + y);
    Product(m - x, n - y);
  }

  /** Factors may be replaced by congruent ones. */
  lemma CongruentProduct(x: int, y: int, y': int, n: nat)
    requires n > 0 && Congruent(y, y', n)
    ensures Congruent(x * y, x * y', n)
  {
    var k := y / n - y' / n;
    assert y == y' + k * n;
    assert x * y == x * y' + x * k * n;
    Shifted(x * y, x * y', x * k, n);
  }

  lemma SignedCongruent(a: bv64)
    ensures Congruent(Signed(a), ToNat(a), TWO64)
  {
    hide ToNat;
    Ranges(a);
    Shifted(Signed(a), ToNat(a), if ToNat(a) < TWO63 then 0 else -1, TWO64);
  }

  /** The low word is the same for signed and unsigned operands. */
  lemma LowWord(a: bv64, b: bv64)
    ensures ToNat(Mul(a, b)) == (Signed(a) * Signed(b)) % TWO64
    ensures ToNat(Mul(a, b)) == (Signed(a) * ToNat(b)) % TWO64
    ensures ToNat(Mul(a, b)) == (ToNat(a) * ToNat(b)) % TWO64
  {
    hide ToNat, Signed;
    SignedCongruent(a);
    SignedCongruent(b);
    CongruentProduct(Signed(a), Signed(b), ToNat(b), TWO64);
    CongruentProduct(ToNat(b), Signed(a), ToNat(a), TWO64);
  }

  lemma Ranges(a: bv64)
    ensures -TWO63 <= Signed(a) < TWO63 && 0 <= ToNat(a) < TWO64
  {}

  /** mulh and mul: the exact signed product. */
  lemma SignedProduct(a: bv64, b: bv64)
    ensures Signed(MulH(a, b)) * TWO64 + ToNat(Mul(a, b)) == Signed(a) * Signed(b)
  {
    hide ToNat, Signed, Word;
    Ranges(a);
    Ranges(b);
    Bound(Signed(a), Signed(b), TWO63, TWO63);
    HighAndLow(Signed(a) * Signed(b));
  }

  /** Words of a product that wrapped at 128 bits. */
  lemma WrappedFactor(x: int, y: int)
    ensures HighWord((x % TWO128) * y) == HighWord(x * y)
  {
    Shifted(x % TWO128, x, -(x / TWO128), TWO128);
    CongruentProduct(y, x % TWO128, x, TWO128);
  }

  lemma UnsignedHighAndLow(x: int)
    requires 0 <= x < TWO128
    ensures (HighWord(x) % TWO64) * TWO64 + x % TWO64 == x
  {}

  lemma WrappedHigh(x: int)
    ensures Congruent(HighWord(x), x / TWO64, TWO64)
  {}

  /** mulhsu and mul: the exact product of a signed and an unsigned number, although the
      signed operand was made unsigned. */
  lemma MixedProduct(a: bv64, b: bv64)
    ensures Signed(MulHSU(a, b)) * TWO64 + ToNat(Mul(a, b)) == Signed(a) * ToNat(b)
  {
    hide ToNat, Signed, Word, HighWord, Mul;
    Ranges(a);
    Ranges(b);
    Bound(Signed(a), ToNat(b), TWO63, TWO64 - 1);
    WrappedFactor(Signed(a), ToNat(b));
    LowWord(a, b);
    MixedWords(Signed(a) * ToNat(b));
  }

  lemma MixedWords(x: int)
    requires -TWO63 * TWO64 <= x < TWO63 * TWO64
    ensures Signed(Word(HighWord(x))) * TWO64 + x % TWO64 == x
  {
    hide ToNat, Signed, Word, HighWord;
    WrappedHigh(x);
    WordSigned(HighWord(x));
    WordSigned(x / TWO64);
    WrapCongruent(HighWord(x), x / TWO64, TWO64);
    HighAndLow(x);
  }

  /** mulhu and mul: the exact unsigned product. */
  lemma UnsignedProduct(a: bv64, b: bv64)
    ensures ToNat(MulHU(a, b)) * TWO64 + ToNat(Mul(a, b)) == ToNat(a) * ToNat(b)
  {
    hide ToNat, Signed, Word, HighWord, Mul;
    Ranges(a);
    Ranges(b);
    BelowProduct(ToNat(a), ToNat(b));
    UnsignedHighAndLow(ToNat(a) * ToNat(b));
    LowWord(a, b);
  }

  lemma BelowProduct(x: nat, y: nat)
    requires x < TWO64 && y < TWO64
    ensures 0 <= x * y < TWO128
  {
    Product(x, y);
    Product(TWO64 - 1 - x, y);
    Product(TWO64 - 1, TWO64 - 1 - y);
  }

  // ---- Quotients -----------------------------------------------------------------------------

  /** The remainder of a division that truncates: smaller than the divisor, and of the sign of
      the dividend. */
  predicate Remainder(r: int, x: int, y: int)
  {
    Abs(r) < Abs(y) && (r == 0 || (r < 0) == (x < 0))
  }

  lemma Division(x: nat, y: nat)
    requires y > 0
    ensures x == (x / y) * y + x % y && x % y < y && 0 <= x / y <= x
  {
    Product(x / y, y - 1);
  }

  lemma Signs(q: int, x: int, y: int)
    requires q >= 0 && y != 0
    ensures (if (x < 0) == (y < 0) then q else -q) * y == if x < 0 then -(q * Abs(y)) else q * Abs(y)
  {}

  lemma Truncates(x: int, y: int)
    requires y != 0
    ensures x == TruncDiv(x, y) * y + TruncRem(x, y) && Remainder(TruncRem(x, y), x, y)
    ensures Abs(TruncDiv(x, y)) <= Abs(x) && Abs(TruncRem(x, y)) <= Abs(x)
  {
    var q := Abs(x) / Abs(y);
    Division(Abs(x), Abs(y));
    Signs(q, x, y);
  }

  lemma WordItself(x: nat)
    requires x < TWO64
    ensures ToNat(Word(x)) == x
  {
    hide ToNat, Word;
  }

  /** divu and remu divide exactly; by zero they give all ones and the dividend. */
  lemma UnsignedDivision(a: bv64, b: bv64)
    ensures if ToNat(b) == 0 then DivU(a, b) == ALL_ONES && RemU(a, b) == a
            else ToNat(a) == ToNat(DivU(a, b)) * ToNat(b) + ToNat(RemU(a, b)) && ToNat(RemU(a, b)) < ToNat(b)
  {
    hide ToNat, Word;
    Ranges(a);
    Ranges(b);
    if ToNat(b) != 0 {
      Division(ToNat(a), ToNat(b));
      WordItself(ToNat(a) / ToNat(b));
      WordItself(ToNat(a) % ToNat(b));
    }
  }

  /** div and rem divide exactly if and only if the operands are not the ones of div's special
      case: -2^31 by -1, whose quotient is 2^31, not the dividend. */
  lemma SignedDivision(a: bv64, b: bv64)
    requires Div(a, b).Some?
    ensures var x, y, q, r := Signed(a), Signed(b), Signed(Div(a, b).value), Signed(Rem(a, b));
            if y == 0 then Div(a, b).value == ALL_ONES && Rem(a, b) == a
            else (x == q * y + r && Remainder(r, x, y) <==> !(x == -0x8000_0000 && y == -1))
  {
    hide ToNat, Signed, Word;
    Ranges(a);
    var x, y := Signed(a), Signed(b);
    if y != 0 {
      Truncates(x, y);
      Quotient(x, y);
      WordSigned(TruncDiv(x, y));
      WordSigned(TruncRem(x, y));
    }
  }

  lemma Quotient(x: int, y: int)
    requires y != 0 && -TWO63 <= x < TWO63 && !(x == -TWO63 && y == -1)
    ensures -TWO63 <= TruncDiv(x, y) < TWO63
  {
    Truncates(x, y);
    if x == -TWO63 {
      var q := TWO63 / Abs(y);
      if y == 1 {
      } else {
        assert 2 <= Abs(y);
        Product(q, Abs(y) - 2);
        assert q * Abs(y) <= TWO63;
      }
    }
  }

  lemma Divisible(q: int, y: int)
    requires y != 0
    ensures (q * y) % Abs(y) == 0
  {
    Shifted(q * y, 0, if y > 0 then q else -q, Abs(y));
  }

  /** rem alone: the remainder, or what the ISA prescribes for division by zero and overflow. */
  lemma SignedRemainder(a: bv64, b: bv64)
    ensures var x, y, r := Signed(a), Signed(b), Signed(Rem(a, b));
            if y == 0 then Rem(a, b) == a else Remainder(r, x, y) && (x - r) % Abs(y) == 0
  {
    hide ToNat, Signed, Word;
    Ranges(a);
    var x, y := Signed(a), Signed(b);
    WordSigned(0);
    if y != 0 {
      Truncates(x, y);
      WordSigned(TruncRem(x, y));
      Divisible(TruncDiv(x, y), y);
    }
  }

  /** divw: the quotient of the low halves, sign-extended. */
  lemma SignedDivisionW(a: bv64, b: bv64)
    ensures var x, y, q := Signed32(a), Signed32(b), Signed(DivW(a, b));
            if y == 0 then DivW(a, b) == ALL_ONES
            else if x == -0x8000_0000 && y == -1 then q == x
            else Remainder(x - q * y, x, y)
  {
    hide ToNat, Signed, Word;
    var x, y := Signed32(a), Signed32(b);
    WordSigned(x);
    if y != 0 {
      Truncates(x, y);
      WordSigned(TruncDiv(x, y));
    }
  }

  /** divuw: the quotient of the unsigned low halves, sign-extended from 32 bits. */
  lemma UnsignedDivisionW(a: bv64, b: bv64)
    ensures var x, y, q := ToNat(a) % TWO32, ToNat(b) % TWO32, Signed(DivUW(a, b)) % TWO32;
            if y == 0 then DivUW(a, b) == ALL_ONES
            else q * y <= x < q * y + y && Signed(DivUW(a, b)) == Wrap(q, TWO32)
  {
    hide ToNat, Signed, Word;
    var x, y := ToNat(a) % TWO32, ToNat(b) % TWO32;
    if y != 0 {
      Division(x, y);
      WordSigned(Wrap(x / y, TWO32));
      WrapMod(x / y);
    }
  }

  /** The remainder that remw should give: of the low halves, the dividend for a zero divisor. */
  function RemainderW(x: int, y: int): int
  {
    if y == 0 then x else TruncRem(x, y)
  }

  /** A divisor greater than the dividend leaves the dividend. */
  lemma GreaterDivisor(x: int, y: int)
    requires y != 0
    ensures TruncRem(x, y) == x <==> Abs(x) < Abs(y)
  {
    Truncates(x, y);
    if Abs(x) < Abs(y) {
      ModUnique(Abs(x), Abs(x), 0, Abs(y));
    }
  }

  /** remw divides by the whole register, so it gives the remainder of the low halves if and only
      if the divisor is a sign-extended word, or its low half is zero or greater than the dividend,
      or the division is that of -2^31 by 2^31. */
  lemma RemWExact(a: bv64, b: bv64)
    requires RemW(a, b).Some?
    ensures var x, y := Signed32(a), Signed32(b);
            Signed(RemW(a, b).value) == RemainderW(x, y) <==>
            Signed(b) == y || y == 0 || Abs(x) < Abs(y) || (Signed(b) == 0x8000_0000 && x == -0x8000_0000)
  {
    hide ToNat, Signed, Word;
    var x, y, z := Signed32(a), Signed32(b), Signed(b);
    Truncates(x, z);
    WordSigned(TruncRem(x, z));
    LowHalf(b);
    if z == 0x8000_0000 && x == -0x8000_0000 {
      assert TruncRem(x, z) == 0 && TruncRem(x, y) == 0;
    } else if z != y {
      GreaterDivisor(x, z);
      if y != 0 {
        GreaterDivisor(x, y);
      }
    }
  }

  /** A register that is not the sign extension of its low half is no 32-bit number. */
  lemma LowHalf(b: bv64)
    ensures Signed(b) == Signed32(b) <==> -0x8000_0000 <= Signed(b) < 0x8000_0000
    ensures Signed(b) == 0x8000_0000 ==> Signed32(b) == -0x8000_0000
  {
    hide ToNat;
    Ranges(b);
    var u := ToNat(b);
    if Signed(b) < 0 {
      Shifted(u, u - TWO64, TWO32, TWO32);
    }
  }

  /** remuw is the remainder of the whole registers. */
  lemma RemUWWhole(a: bv64, b: bv64)
    requires RemUW(a, b).Some?
    ensures ToNat(RemUW(a, b).value) == ToNat(a) % ToNat(b)
  {
    hide ToNat, Word;
    Ranges(a);
    Division(ToNat(a), ToNat(b));
    WordItself(ToNat(a) % ToNat(b));
  }

  /** The remainder that remuw should give, of the unsigned low halves; a zero divisor leaves the
      dividend. */
  function RemainderUW(x: nat, y: nat): nat
  {
    if y % TWO32 == 0 then x % TWO32 else x % TWO32 % (y % TWO32)
  }

  lemma RemainderBounds(x: nat, y: nat)
    requires y > 0
    ensures RemainderUW(x, y) < TWO32 && RemainderUW(x, y) <= x && RemainderUW(x, y) < y
  {
    Division(x, TWO32);
    Division(y, TWO32);
    if y % TWO32 != 0 {
      Division(x % TWO32, y % TWO32);
    }
  }

  /** A number smaller than the divisor is the remainder exactly when the difference is a multiple. */
  lemma IsRemainder(x: nat, y: nat, m: nat)
    requires y > 0 && m < y && m <= x
    ensures x % y == m <==> (x - m) % y == 0
  {
    Division(x, y);
    Division(x - m, y);
    if x % y == m {
      ModUnique(x - m, 0, x / y, y);
    }
    if (x - m) % y == 0 {
      ModUnique(x, m, (x - m) / y, y);
    }
  }

  /** A remainder in the upper half of the words is the dividend itself. */
  lemma GreatRemainder(x: nat, y: nat, m: nat)
    requires y > 0 && x < TWO64 && TWO63 <= m < TWO64
    ensures x % y == m <==> x == m && x < y
  {
    Division(x, y);
    if x < y {
      ModUnique(x, x, 0, y);
    } else {
      Product(x / y - 1, y);
    }
  }

  /** remuw gives the sign-extended remainder of the low halves, as it should, if and only if that
      remainder is below 2^31 and differs from the dividend by a multiple of the divisor, or is not
      and is the dividend, sign-extended, already, and the divisor is greater. */
  lemma RemUWExact(a: bv64, b: bv64)
    requires RemUW(a, b).Some?
    ensures var x, y := ToNat(a), ToNat(b);
            var m := RemainderUW(x, y);
            && m <= x
            && (RemUW(a, b).value == Word(Wrap(m, TWO32)) <==>
                if m < 0x8000_0000 then (x - m) % y == 0 else x == TWO64 - TWO32 + m && x < y)
  {
    hide ToNat, Word;
    var x, y := ToNat(a), ToNat(b);
    var m := RemainderUW(x, y);
    Ranges(a);
    Ranges(b);
    RemainderBounds(x, y);
    Division(x, y);
    SignExtended(m);
    SameWord(x % y, Wrap(m, TWO32) % TWO64);
    if m < 0x8000_0000 {
      IsRemainder(x, y, m);
    } else {
      GreatRemainder(x, y, TWO64 - TWO32 + m);
    }
  }

  lemma SignExtended(m: nat)
    requires m < TWO32
    ensures Wrap(m, TWO32) % TWO64 == if m < 0x8000_0000 then m else TWO64 - TWO32 + m
    ensures Word(Wrap(m, TWO32)) == Word(Wrap(m, TWO32) % TWO64)
  {
    hide ToNat;
    assert Wrap(m, TWO32) == if m < 0x8000_0000 then m else m - TWO32;
    if m < 0x8000_0000 {
      ModUnique(m, m, 0, TWO64);
    } else {
      ModUnique(m - TWO32, TWO64 - TWO32 + m, -1, TWO64);
    }
  }

  lemma SameWord(p: nat, q: nat)
    requires p < TWO64 && q < TWO64
    ensures Word(p) == Word(q) <==> p == q
  {
    hide ToNat, Word;
    WordItself(p);
    WordItself(q);
  }

  /** On zero-extended words that is exactly when the remainder is below 2^31: the result is not
      sign-extended. */
  lemma RemUWZeroExtended(a: bv64, b: bv64)
    requires ToNat(a) < TWO32 && 0 < ToNat(b) < TWO32
    ensures RemUW(a, b).Some?
    ensures RemUW(a, b).value == Word(Wrap(ToNat(a) % ToNat(b), TWO32)) <==> ToNat(a) % ToNat(b) < 0x8000_0000
  {
    hide ToNat, Word, RemainderUW;
    var x, y := ToNat(a), ToNat(b);
    RemUWExact(a, b);
    SmallRemainder(x, y);
    IsRemainder(x, y, x % y);
  }

  lemma SmallRemainder(x: nat, y: nat)
    requires x < TWO32 && 0 < y < TWO32
    ensures RemainderUW(x, y) == x % y && x % y <= x && x % y < y
  {
    ModUnique(x, x, 0, TWO32);
    ModUnique(y, y, 0, TWO32);
    Division(x, y);
  }
}
