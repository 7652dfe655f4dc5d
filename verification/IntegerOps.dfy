/** What the integer instructions compute, as arithmetic on the numbers in the registers (chapters 2, 5
    and 7 of the Unprivileged ISA), and that their handlers compute it. */
module IntegerOps {
  import opened Bits
  import opened Memory
  import opened PageTable
  import opened Hart
  import opened MulDiv
  import opened Decoder
  import opened Isa
  import opened Ordering
  import opened PageArithmetic
  import opened Numbers

  /** A number to write to rd, an illegal instruction, or what the source leaves undefined. */
  datatype Result = Value(x: int) | IllegalWord | Undefined

  /** The unsigned number with the same word. */
  function Unsigned(x: int): nat { x % TWO64 }

  /** The quotient rounded toward zero. */
  function Truncated(x: int, y: int): int
    requires y != 0
  {
    if x >= 0 then x / y else -(-x / y)
  }

  /** Section 2.4: add, sll, slt, sltu, xor, srl, or, and, by funct3. */
  function Computed(f3: bv64, x: int, y: int): int
  {
    match f3
    case 0 => x + y
    case 1 => x * Pow2(y % 64)
    case 2 => if x < y then 1 else 0
    case 3 => if Unsigned(x) < Unsigned(y) then 1 else 0
    case 4 => Bitwise(Exclusive, Unsigned(x), Unsigned(y))
    case 5 => Unsigned(x) / Pow2(y % 64)
    case 6 => Bitwise(Inclusive, Unsigned(x), Unsigned(y))
    case _ => Bitwise(Both, Unsigned(x), Unsigned(y))
  }

  /** Chapter 7: mul, mulh, mulhsu, mulhu, div, divu, rem, remu. The overflow of div is left undefined,
      and div gives its dividend for -2^31 by -1. */
  function Multiplied(f3: bv64, x: int, y: int): Result
  {
    match f3
    case 0 => Value(x * y)
    case 1 => Value(x * y / TWO64)
    case 2 => Value(x * Unsigned(y) / TWO64)
    case 3 => Value(Unsigned(x) * Unsigned(y) / TWO64)
    case 4 =>
      if y == 0 then Value(-1)
      else if x == -0x8000_0000_0000_0000 && y == -1 then Undefined
      else Value(if x == -0x8000_0000 && y == -1 then x else Truncated(x, y))
    case 5 => Value(if Unsigned(y) == 0 then -1 else Unsigned(x) / Unsigned(y))
    case 6 => Value(if y == 0 then x else x - Truncated(x, y) * y)
    case _ => Value(if Unsigned(y) == 0 then x else Unsigned(x) % Unsigned(y))
  }

  /** Opcode OP. The shift sra takes the low half of its operand and any count below 32. */
  function OpResult(f7: bv64, f3: bv64, x: int, y: int): Result
  {
    if f7 == 0 then Value(Computed(f3, x, y))
    else if f7 == 1 then Multiplied(f3, x, y)
    else if f7 == 0x20 && f3 == 0 then Value(x - y)
    else if f7 == 0x20 && f3 == 5 then
      if Unsigned(y) < 32 then Value(Wrap(x, TWO32) / Pow2(Unsigned(y))) else Undefined
    else IllegalWord
  }

  /** Opcode OP-IMM; bits 31 to 26 of the word tell the right shifts apart. */
  function OpImmResult(f6: bv64, f3: bv64, x: int, imm: int): Result
  {
    if f3 != 5 || f6 == 0 then Value(Computed(f3, x, imm))
    else if f6 == 0x10 then Value(x / Pow2(imm % 64))
    else IllegalWord
  }

  /** Opcode OP-32: on the low halves, and the result sign-extended; but remw divides by the whole
      register, and remuw takes the remainder of whole registers. */
  function OpWResult(f7: bv64, f3: bv64, x: int, y: int): Result
  {
    var u, v := x % TWO32, y % TWO32;
    match f3
    case 0 =>
      if f7 == 0 then Value(Wrap(x + y, TWO32))
      else if f7 == 1 then Value(Wrap(x * y, TWO32))
      else if f7 == 0x20 then Value(Wrap(x - y, TWO32))
      else IllegalWord
    case 1 => Value(Wrap(x * Pow2(y % 32), TWO32))
    case 4 => Value(if v == 0 then -1 else Wrap(Truncated(Wrap(x, TWO32), Wrap(y, TWO32)), TWO32))
    case 5 =>
      if f7 == 0 then Value(Wrap(u / Pow2(y % 32), TWO32))
      else if f7 == 1 then Value(if v == 0 then -1 else Wrap(u / v, TWO32))
      else if f7 == 0x20 then Value(Wrap(x, TWO32) / Pow2(y % 32))
      else IllegalWord
    case 6 => if y == 0 then Undefined else Value(Wrap(x, TWO32) - Truncated(Wrap(x, TWO32), y) * y)
    case 7 => if Unsigned(y) == 0 then Undefined else Value(Unsigned(x) % Unsigned(y))
    case _ => IllegalWord
  }

  /** Opcode OP-IMM-32. */
  function OpImmWResult(f7: bv64, f3: bv64, x: int, imm: int): Result
  {
    match f3
    case 0 => Value(Wrap(x + imm, TWO32))
    case 1 => Value(Wrap(x * Pow2(imm % 64), TWO32))
    case 5 =>
      if f7 == 0 then Value(Wrap(x % TWO32 / Pow2(imm % 32), TWO32))
      else if f7 == 0x20 then Value(Wrap(x, TWO32) / Pow2(imm % 32))
      else IllegalWord
    case _ => IllegalWord
  }

  /** Section 2.5: beq, bne, blt, bge, bltu, bgeu. */
  predicate Taken(f3: bv64, x: int, y: int)
  {
    match f3
    case 0 => x == y
    case 1 => x != y
    case 4 => x < y
    case 5 => x >= y
    case 6 => Unsigned(x) < Unsigned(y)
    case _ => Unsigned(x) >= Unsigned(y)
  }

  /** What an instruction with a given result does. */
  function Done(pc: bv64, w: bv64, result: Result): Option<Effect>
  {
    match result
    case Value(x) => Some(Effect(pc, Write(Rd(w), Word(x))))
    case IllegalWord => Some(Effect(pc, Raises(IllegalInstruction, w)))
    case Undefined => None
  }

  // ---- Section 2.4 ---------------------------------------------------------------------------------------

  lemma UnsignedIs(a: bv64)
    ensures Unsigned(Signed(a)) == ToNat(a)
  {
    hide ToNat, Signed;
    SignedMod(a);
  }

  lemma Count(b: bv64)
    ensures b & 0x3f < 64 && And(b, Ones(6)) == b & 0x3f && b & 0x1f < 32 && And(b, Ones(5)) == b & 0x1f
    ensures ToNat(5) == 5 && ToNat(6) == 6
  {}

  lemma CountPowers()
    ensures Pow2(5) == 32 && Pow2(6) == 64
  {
    assert Pow2(3) == 8;
  }

  lemma SmallerModulus(x: int, y: int)
    requires Congruent(x, y, TWO64)
    ensures x % 64 == y % 64 && x % 32 == y % 32 && x % TWO32 == y % TWO32
  {
    var k := x / TWO64 - y / TWO64;
    assert x == y + k * TWO64;
    Shifted(x, y, k * 0x400_0000_0000_0000, 64);
    Shifted(x, y, k * 0x800_0000_0000_0000, 32);
    Shifted(x, y, k * TWO32, TWO32);
  }

  /** The count of a shift. */
  lemma CountMeans(b: bv64)
    ensures b & 0x3f < 64 && ToNat(b & 0x3f) == Signed(b) % 64 && b & 0x1f < 32 && ToNat(b & 0x1f) == Signed(b) % 32
  {
    hide ToNat, Signed, And, Ones, Pow2;
    Count(b);
    CountPowers();
    LowBits(b, 6);
    LowBits(b, 5);
    SignedCongruent(b);
    SmallerModulus(Signed(b), ToNat(b));
  }

  lemma ShiftsAre(a: bv64, b: bv64)
    ensures b & 0x3f < 64 && Sll(a, b) == Shl(a, b & 0x3f) && Srl(a, b) == Shr(a, b & 0x3f)
    ensures SraBy(a, b) == Sra(a, b & 0x3f)
  {
    hide Sra;
  }

  lemma SllMeans(a: bv64, b: bv64)
    ensures Sll(a, b) == Word(Signed(a) * Pow2(Signed(b) % 64))
  {
    hide ToNat, Signed, Shl, Sll, Srl, SraBy, Word, Pow2;
    var p := Pow2(Signed(b) % 64);
    ShiftsAre(a, b);
    CountMeans(b);
    ShlMeans(a, b & 0x3f);
    SignedCongruent(a);
    CongruentProduct(p, Signed(a), ToNat(a), TWO64);
    assert p * Signed(a) == Signed(a) * p && p * ToNat(a) == ToNat(a) * p;
    IsWord(Sll(a, b), Signed(a) * p);
  }

  lemma SrlMeans(a: bv64, b: bv64)
    ensures Srl(a, b) == Word(Unsigned(Signed(a)) / Pow2(Signed(b) % 64))
  {
    hide ToNat, Signed, Shr, Sll, Srl, SraBy, Word, Pow2, Unsigned;
    ShiftsAre(a, b);
    CountMeans(b);
    ShrMeans(a, b & 0x3f);
    UnsignedIs(a);
    SignedWord(Srl(a, b));
  }

  lemma SraByMeans(a: bv64, b: bv64)
    ensures SraBy(a, b) == Word(Signed(a) / Pow2(Signed(b) % 64))
  {
    hide ToNat, Signed, Sra, Sll, Srl, SraBy, Word, Pow2;
    ShiftsAre(a, b);
    CountMeans(b);
    SraMeans(a, b & 0x3f);
  }

  lemma TruthMeans(b: bool)
    ensures Truth(b) == Word(if b then 1 else 0)
  {
    hide Word, ToNat;
    assert ToNat(0) == 0 && ToNat(1) == 1 by { Digits(); }
    SignedWord(Truth(b));
  }

  lemma Digits()
    ensures ToNat(0) == 0 && ToNat(1) == 1
  {}

  lemma Compared(a: bv64, b: bv64)
    ensures BelowSigned(a, b) <==> Signed(a) < Signed(b)
    ensures Isa.Below(a, b) <==> Unsigned(Signed(a)) < Unsigned(Signed(b))
    ensures a == b <==> Signed(a) == Signed(b)
  {
    hide ToNat, Signed, BelowSigned, Isa.Below, Unsigned;
    BelowSignedMeans(a, b);
    BelowMeans(a, b);
    UnsignedIs(a);
    UnsignedIs(b);
  }

  lemma BitsCombined(a: bv64, b: bv64)
    ensures Xor(a, b) == Word(Bitwise(Exclusive, Unsigned(Signed(a)), Unsigned(Signed(b))))
    ensures Or(a, b) == Word(Bitwise(Inclusive, Unsigned(Signed(a)), Unsigned(Signed(b))))
    ensures And(a, b) == Word(Bitwise(Both, Unsigned(Signed(a)), Unsigned(Signed(b))))
  {
    hide ToNat, Signed, Xor, Or, And, Unsigned, Bitwise, Word;
    UnsignedIs(a);
    UnsignedIs(b);
    BitwiseMeans(Exclusive, a, b);
    BitwiseMeans(Inclusive, a, b);
    BitwiseMeans(Both, a, b);
    SignedWord(Xor(a, b));
    SignedWord(Or(a, b));
    SignedWord(And(a, b));
  }

  lemma BaseOpMeans(f3: bv64, a: bv64, b: bv64)
    ensures BaseOp(f3, a, b) == Word(Computed(f3, Signed(a), Signed(b)))
  {
    hide ToNat, Signed, Add, Sub, Sll, Srl, Xor, Or, And, Truth, Isa.Below, BelowSigned, Unsigned, Bitwise, Word, Pow2;
    Sum(a, b);
    SllMeans(a, b);
    SrlMeans(a, b);
    Compared(a, b);
    TruthMeans(BelowSigned(a, b));
    TruthMeans(Isa.Below(a, b));
    BitsCombined(a, b);
  }

  /** The branch conditions compare numbers. */
  lemma TakenMeans(f3: bv64, a: bv64, b: bv64)
    ensures BranchTaken(f3, a, b) <==> Taken(f3, Signed(a), Signed(b))
  {
    hide Signed, Isa.Below, BelowSigned, Unsigned;
    Compared(a, b);
  }

  // ---- Chapter 7 -----------------------------------------------------------------------------------------

  lemma TruncatedIs(x: int, y: int)
    requires y != 0
    ensures TruncDiv(x, y) == Truncated(x, y)
  {
    var n, d := Abs(x), Abs(y);
    Division(n, d);
    if y < 0 {
      ModUnique(n, n % d, n / d, d);
      assert n == (-(n / d)) * y + n % d;
      NegativeDivisor(n, y, -(n / d), n % d);
    }
  }

  lemma NegativeDivisor(n: nat, y: int, q: int, r: int)
    requires y < 0 && n == q * y + r && 0 <= r < -y
    ensures n / y == q
  {
    var k, s := n / y, n % y;
    assert n == k * y + s;
    Multiple(q - k, -y, r - s);
  }

  lemma MinusOne()
    ensures ALL_ONES == Word(-1)
  {
    hide ToNat, Word;
    OnesWrap();
    NegativeWord(ALL_ONES, 0);
  }

  lemma SameWords(x: int, y: int)
    requires Congruent(x, y, TWO64)
    ensures Word(x) == Word(y)
  {
    hide ToNat, Word;
    IsWord(Word(x), y);
  }

  lemma HighParts(x: int, y: nat, u: nat)
    requires 0 <= u < TWO64 && 0 <= y < TWO64
    ensures Word(HighWord((x % TWO128) * y)) == Word(x * y / TWO64)
    ensures Word(HighWord(u * y)) == Word(u * y / TWO64)
  {
    hide ToNat, Word, HighWord;
    WrappedFactor(x, y);
    WrappedHigh(x * y);
    WrappedHigh(u * y);
    SameWords(HighWord(x * y), x * y / TWO64);
    SameWords(HighWord(u * y), u * y / TWO64);
  }

  lemma HighWords(a: bv64, b: bv64)
    ensures MulHSU(a, b) == Word(Signed(a) * Unsigned(Signed(b)) / TWO64)
    ensures MulHU(a, b) == Word(Unsigned(Signed(a)) * Unsigned(Signed(b)) / TWO64)
  {
    hide ToNat, Signed, Word, HighWord, Unsigned;
    UnsignedIs(a);
    UnsignedIs(b);
    Ranges(a);
    Ranges(b);
    HighParts(Signed(a), ToNat(b), ToNat(a));
  }

  /** What is written when an operation has a result. */
  function Written(v: Result): Option<bv64>
  {
    match v
    case Value(x) => Some(Word(x))
    case _ => None
  }

  lemma ZeroMeans(b: bv64)
    ensures Signed(b) == 0 <==> ToNat(b) == 0
    ensures Signed(b) == 0 <==> Unsigned(Signed(b)) == 0
  {
    hide ToNat;
    UnsignedIs(b);
  }

  lemma DivMeans(a: bv64, b: bv64)
    ensures Div(a, b) == Written(Multiplied(4, Signed(a), Signed(b)))
    ensures Some(Rem(a, b)) == Written(Multiplied(6, Signed(a), Signed(b)))
  {
    hide ToNat, Signed, Word, Truncated, TruncDiv;
    MinusOne();
    SignedWord(a);
    if Signed(b) != 0 {
      TruncatedIs(Signed(a), Signed(b));
    }
    assert Truncated(-TWO63, -1) == TWO63 by { LeastByMinusOne(); }
  }

  lemma LeastByMinusOne()
    ensures Truncated(-TWO63, -1) == TWO63
  {
    NegativeDivisor(TWO63, -1, -TWO63, 0);
  }

  lemma DivUMeans(a: bv64, b: bv64)
    ensures Some(DivU(a, b)) == Written(Multiplied(5, Signed(a), Signed(b)))
    ensures Some(RemU(a, b)) == Written(Multiplied(7, Signed(a), Signed(b)))
  {
    hide ToNat, Signed, Word, Unsigned;
    MinusOne();
    UnsignedIs(a);
    UnsignedIs(b);
    SignedWord(a);
  }

  lemma MulDivMeans(f3: bv64, a: bv64, b: bv64)
    requires f3 < 8
    ensures MulDivOp(f3, a, b) == Written(Multiplied(f3, Signed(a), Signed(b)))
  {
    hide ToNat, Signed, Word, Unsigned, MulHSU, MulHU, Div, DivU, Rem, RemU, Truncated;
    HighWords(a, b);
    DivMeans(a, b);
    DivUMeans(a, b);
  }

  // ---- The operations on words ---------------------------------------------------------------------------

  lemma Halved32(x: int, y: int)
    requires Congruent(x, y, TWO64)
    ensures Wrap(x, TWO32) == Wrap(y, TWO32) && x % TWO32 == y % TWO32
  {
    SmallerModulus(x, y);
    WrapCongruent(x, y, TWO32);
  }

  lemma SextWord(v: bv64, x: int)
    requires v == Word(x)
    ensures Sext32(v) == Word(Wrap(x, TWO32))
  {
    hide ToNat, Word, Sext32, Wrap;
    Sext32Means(v);
    ModTwice(x);
    Halved32(ToNat(v), x);
  }

  lemma ModTwice(x: int)
    ensures x % TWO64 % TWO64 == x % TWO64
  {}

  lemma LowHalves(a: bv64)
    ensures Signed32(a) == Wrap(Signed(a), TWO32) && ToNat(a) % TWO32 == Signed(a) % TWO32
    ensures Signed32(a) == 0 <==> Signed(a) % TWO32 == 0
  {
    hide ToNat, Signed;
    SignedCongruent(a);
    Halved32(Signed(a), ToNat(a));
  }

  lemma SextIs(a: bv64)
    ensures Signed(Sext32(a)) == Wrap(Signed(a), TWO32)
  {
    hide ToNat, Signed, Word, Sext32, Wrap;
    SignedWord(a);
    SextWord(a, Signed(a));
    assert -TWO63 <= Wrap(Signed(a), TWO32) < TWO63;
    WordSigned(Wrap(Signed(a), TWO32));
  }

  lemma SllWIs(a: bv64, b: bv64, n: bv64)
    requires n == b & 0x1f && n < 64
    ensures SllW(a, b) == Sext32(Shl(a, n))
  {
    hide Sext32;
  }

  lemma SrlWIs(a: bv64, b: bv64, n: bv64, x: bv64)
    requires n == b & 0x1f && n < 64 && x == a & 0xffff_ffff
    ensures SrlW(a, b) == Sext32(Shr(x, n)) && SraW(a, b) == Sra(Sext32(a), n)
  {
    hide Sext32, Sra;
  }

  lemma LowMask(a: bv64)
    ensures And(a, Ones(32)) == a & 0xffff_ffff && ToNat(32) == 32
  {}

  lemma WordShiftsAre(a: bv64, b: bv64)
    ensures b & 0x1f < 64 && SllW(a, b) == Sext32(Shl(a, b & 0x1f))
    ensures SrlW(a, b) == Sext32(Shr(And(a, Ones(32)), b & 0x1f)) && SraW(a, b) == Sra(Sext32(a), b & 0x1f)
    ensures ToNat(32) == 32
  {
    hide Sext32, Sra, SllW, SrlW, SraW, Shl, Shr, And, Ones, ToNat;
    Count(b);
    LowMask(a);
    SllWIs(a, b, b & 0x1f);
    SrlWIs(a, b, b & 0x1f, a & 0xffff_ffff);
  }

  lemma SllWMeans(a: bv64, b: bv64)
    ensures SllW(a, b) == Word(Wrap(Signed(a) * Pow2(Signed(b) % 32), TWO32))
  {
    hide ToNat, Signed, Shl, SllW, SrlW, SraW, Word, Pow2, Sext32, Wrap;
    var p := Pow2(Signed(b) % 32);
    WordShiftsAre(a, b);
    CountMeans(b);
    ShlMeans(a, b & 0x1f);
    SignedCongruent(a);
    CongruentProduct(p, Signed(a), ToNat(a), TWO64);
    assert p * Signed(a) == Signed(a) * p && p * ToNat(a) == ToNat(a) * p;
    IsWord(Shl(a, b & 0x1f), Signed(a) * p);
    SextWord(Shl(a, b & 0x1f), Signed(a) * p);
  }

  lemma RightWMeans(a: bv64, b: bv64)
    ensures SrlW(a, b) == Word(Wrap(Signed(a) % TWO32 / Pow2(Signed(b) % 32), TWO32))
    ensures SraW(a, b) == Word(Wrap(Signed(a), TWO32) / Pow2(Signed(b) % 32))
  {
    hide ToNat, Signed, Shr, And, Ones, SllW, SrlW, SraW, Sra, Word, Pow2, Sext32, Wrap;
    var n := b & 0x1f;
    WordShiftsAre(a, b);
    CountMeans(b);
    LowBits(a, 32);
    WordPowers();
    LowHalves(a);
    ShrMeans(And(a, Ones(32)), n);
    SignedWord(Shr(And(a, Ones(32)), n));
    SextWord(Shr(And(a, Ones(32)), n), ToNat(Shr(And(a, Ones(32)), n)));
    SextIs(a);
    SraMeans(Sext32(a), n);
  }

  lemma SumsW(a: bv64, b: bv64)
    ensures Sext32(Add(a, b)) == Word(Wrap(Signed(a) + Signed(b), TWO32))
    ensures Sext32(Sub(a, b)) == Word(Wrap(Signed(a) - Signed(b), TWO32))
    ensures MulW(a, b) == Word(Wrap(Signed(a) * Signed(b), TWO32))
  {
    hide ToNat, Signed, Word, Sext32, Wrap, Add, Sub;
    Sum(a, b);
    SextWord(Add(a, b), Signed(a) + Signed(b));
    SextWord(Sub(a, b), Signed(a) - Signed(b));
    SignedCongruent(a);
    SignedCongruent(b);
    CongruentProduct(Signed(a), Signed(b), ToNat(b), TWO64);
    CongruentProduct(ToNat(b), Signed(a), ToNat(a), TWO64);
    Halved32(Signed(a) * Signed(b), ToNat(a) * ToNat(b));
  }

  lemma WordQuotient(x: int, y: int)
    requires y != 0 && -0x8000_0000 <= x < 0x8000_0000 && -0x8000_0000 <= y < 0x8000_0000
    ensures Wrap(TruncDiv(x, y), TWO32) == if x == -0x8000_0000 && y == -1 then x else TruncDiv(x, y)
  {
    var q := TruncDiv(x, y);
    Truncates(x, y);
    if x == -0x8000_0000 && y == -1 {
      assert q == 0x8000_0000;
    } else {
      if q == 0x8000_0000 && y != 1 {
        assert 2 <= Abs(y);
        Product(Abs(x) / Abs(y), Abs(y) - 2);
        Division(Abs(x), Abs(y));
      }
      WrapSmall(q, TWO32);
    }
  }

  lemma DivWMeans(a: bv64, b: bv64)
    ensures Some(DivW(a, b)) == Written(OpWResult(1, 4, Signed(a), Signed(b)))
    ensures Some(DivUW(a, b)) == Written(OpWResult(1, 5, Signed(a), Signed(b)))
  {
    hide ToNat, Signed, Word, Wrap, Truncated, TruncDiv;
    MinusOne();
    LowHalves(a);
    LowHalves(b);
    var x, y := Signed32(a), Signed32(b);
    if y != 0 {
      TruncatedIs(x, y);
      WordQuotient(x, y);
    }
  }

  lemma RemWMeans(a: bv64, b: bv64)
    ensures RemW(a, b) == Written(OpWResult(1, 6, Signed(a), Signed(b)))
    ensures RemUW(a, b) == Written(OpWResult(1, 7, Signed(a), Signed(b)))
  {
    hide ToNat, Signed, Word, Wrap, Truncated, TruncDiv, Unsigned;
    LowHalves(a);
    UnsignedIs(a);
    UnsignedIs(b);
    if Signed(b) != 0 {
      TruncatedIs(Signed32(a), Signed(b));
    }
  }

  // ---- The handlers --------------------------------------------------------------------------------------

  lemma Funct3Below(w: bv64)
    ensures Funct3(w) < 8
  {}

  lemma SraLowMeans(a: bv64, b: bv64)
    ensures SraLow(a, b) ==
            if Unsigned(Signed(b)) < 32 then Some(Word(Wrap(Signed(a), TWO32) / Pow2(Unsigned(Signed(b))))) else None
  {
    hide ToNat, Signed, Word, Wrap, Sext32, Sra, Pow2, Unsigned;
    UnsignedIs(b);
    assert b < 32 <==> ToNat(b) < 32 by { ThirtyTwo(b); }
    if b < 32 {
      SextIs(a);
      SraMeans(Sext32(a), b);
    }
  }

  lemma ThirtyTwo(b: bv64)
    ensures b < 32 <==> ToNat(b) < 32
  {
    hide ToNat, Isa.Below;
    assert ToNat(32) == 32 && (b < 32 <==> Isa.Below(b, 32)) by { BelowThirtyTwo(b); }
    BelowMeans(b, 32);
  }

  lemma BelowThirtyTwo(b: bv64)
    ensures ToNat(32) == 32 && (b < 32 <==> Isa.Below(b, 32))
  {}

  /** Opcode OP: the numbers in the two registers decide what is written to rd. */
  lemma OpMeans(w: bv64, r: IntRegs, pc: bv64, len: bv64)
    requires Opcode(w) == 0x33
    ensures Effect32(w, r, pc, len) ==
            Done(pc, w, OpResult(Funct7(w), Funct3(w), Signed(Reg(r, Rs1(w))), Signed(Reg(r, Rs2(w)))))
  {
    hide Opcode, Funct7, Funct3, Rs1, Rs2, Rd, Reg, Signed, Word, BaseOp, MulDivOp, Sub, SraLow, Computed, Multiplied,
      Unsigned, Wrap, Pow2;
    var a, b := Reg(r, Rs1(w)), Reg(r, Rs2(w));
    Funct3Below(w);
    BaseOpMeans(Funct3(w), a, b);
    MulDivMeans(Funct3(w), a, b);
    MultipliedLegal(Funct3(w), Signed(a), Signed(b));
    Sum(a, b);
    SraLowMeans(a, b);
  }

  lemma MultipliedLegal(f3: bv64, x: int, y: int)
    ensures !Multiplied(f3, x, y).IllegalWord?
  {}

  function ActionOf(w: bv64, result: Result): Option<Action>
  {
    match result
    case Value(x) => Some(Write(Rd(w), Word(x)))
    case IllegalWord => Some(Raises(IllegalInstruction, w))
    case Undefined => None
  }

  lemma RegWLow(w: bv64, r: IntRegs)
    requires Funct3(w) < 4
    ensures RegWAction(w, r) ==
            ActionOf(w, OpWResult(Funct7(w), Funct3(w), Signed(Reg(r, Rs1(w))), Signed(Reg(r, Rs2(w)))))
  {
    hide Funct7, Funct3, Rs1, Rs2, Rd, Reg, Signed, Word, SllW, SrlW, SraW, Sext32, Add, Sub, MulW, DivW, DivUW, RemW,
      RemUW, Unsigned, Wrap, Pow2, Truncated;
    var a, b := Reg(r, Rs1(w)), Reg(r, Rs2(w));
    SumsW(a, b);
    SllWMeans(a, b);
  }

  lemma RegWHigh(w: bv64, r: IntRegs)
    requires 4 <= Funct3(w) < 8
    ensures RegWAction(w, r) ==
            ActionOf(w, OpWResult(Funct7(w), Funct3(w), Signed(Reg(r, Rs1(w))), Signed(Reg(r, Rs2(w)))))
  {
    hide Funct7, Funct3, Rs1, Rs2, Rd, Reg, Signed, Word, SllW, SrlW, SraW, Sext32, Add, Sub, MulW, DivW, DivUW, RemW,
      RemUW, Unsigned, Wrap, Pow2, Truncated;
    var a, b := Reg(r, Rs1(w)), Reg(r, Rs2(w));
    RightWMeans(a, b);
    DivWMeans(a, b);
    RemWMeans(a, b);
  }

  /** Opcode OP-32. */
  lemma OpWMeans(w: bv64, r: IntRegs, pc: bv64, len: bv64)
    requires Opcode(w) == 0x3b
    ensures Effect32(w, r, pc, len) ==
            Done(pc, w, OpWResult(Funct7(w), Funct3(w), Signed(Reg(r, Rs1(w))), Signed(Reg(r, Rs2(w)))))
  {
    hide Opcode, Funct7, Funct3, Rs1, Rs2, Rd, Reg, Signed, Word, RegWAction, OpWResult;
    Funct3Below(w);
    if Funct3(w) < 4 {
      RegWLow(w, r);
    } else {
      RegWHigh(w, r);
    }
  }

  lemma ShamtCounts(b: bv64)
    ensures And(b, 0x3f) & 0x3f == b & 0x3f && And(b, 0x3f) & 0x1f == b & 0x1f
  {}

  lemma ShiftsBy(a: bv64, m: bv64, b: bv64)
    requires m & 0x3f == b & 0x3f
    ensures Sll(a, m) == Sll(a, b) && Srl(a, m) == Srl(a, b) && SraBy(a, m) == SraBy(a, b)
  {
    hide Sra, Sll, Srl, SraBy, Shl, Shr;
    ShiftsAre(a, m);
    ShiftsAre(a, b);
  }

  lemma ShiftsWBy(a: bv64, m: bv64, b: bv64)
    requires m & 0x1f == b & 0x1f
    ensures SrlW(a, m) == SrlW(a, b) && SraW(a, m) == SraW(a, b)
  {
    hide Sra, Sext32;
  }

  lemma SameCount(a: bv64, b: bv64)
    ensures Sll(a, And(b, 0x3f)) == Sll(a, b) && Srl(a, And(b, 0x3f)) == Srl(a, b)
    ensures SraBy(a, And(b, 0x3f)) == SraBy(a, b)
    ensures SrlW(a, And(b, 0x3f)) == SrlW(a, b) && SraW(a, And(b, 0x3f)) == SraW(a, b)
  {
    hide And, Sll, Srl, SraBy, SrlW, SraW;
    ShamtCounts(b);
    ShiftsBy(a, And(b, 0x3f), b);
    ShiftsWBy(a, And(b, 0x3f), b);
  }

  lemma ImmActionMeans(w: bv64, r: IntRegs)
    ensures Some(ImmAction(w, r)) ==
            ActionOf(w, OpImmResult(Funct7(w) >> 1, Funct3(w), Signed(Reg(r, Rs1(w))), Signed(ImmI(w))))
  {
    hide Funct7, Funct3, Rs1, Rd, Reg, Signed, Word, ImmI, Add, Sll, Srl, SraBy, Xor, Or, And, Truth, Isa.Below,
      BelowSigned, Computed, Pow2;
    var a, imm := Reg(r, Rs1(w)), ImmI(w);
    Funct3Below(w);
    BaseOpMeans(Funct3(w), a, imm);
    SameCount(a, imm);
    SraByMeans(a, imm);
  }

  /** Opcode OP-IMM. */
  lemma OpImmMeans(w: bv64, r: IntRegs, pc: bv64, len: bv64)
    requires Opcode(w) == 0x13
    ensures Effect32(w, r, pc, len) ==
            Done(pc, w, OpImmResult(Funct7(w) >> 1, Funct3(w), Signed(Reg(r, Rs1(w))), Signed(ImmI(w))))
  {
    hide Opcode, Funct7, Funct3, Rs1, Rd, Reg, Signed, Word, ImmI, ImmAction, OpImmResult;
    ImmActionMeans(w, r);
  }

  lemma ImmWActionMeans(w: bv64, r: IntRegs)
    ensures Some(ImmWAction(w, r)) ==
            ActionOf(w, OpImmWResult(Funct7(w), Funct3(w), Signed(Reg(r, Rs1(w))), Signed(ImmI(w))))
  {
    hide Funct7, Funct3, Rs1, Rd, Reg, Signed, Word, ImmI, Add, Sll, Srl, SraBy, SrlW, SraW, And, Sext32, Wrap, Pow2;
    var a, imm := Reg(r, Rs1(w)), ImmI(w);
    Funct3Below(w);
    SumsW(a, imm);
    SameCount(a, imm);
    SllMeans(a, imm);
    SextWord(Sll(a, imm), Signed(a) * Pow2(Signed(imm) % 64));
    RightWMeans(a, imm);
  }

  /** Opcode OP-IMM-32; slliw takes a six-bit count. */
  lemma OpImmWMeans(w: bv64, r: IntRegs, pc: bv64, len: bv64)
    requires Opcode(w) == 0x1b
    ensures Effect32(w, r, pc, len) ==
            Done(pc, w, OpImmWResult(Funct7(w), Funct3(w), Signed(Reg(r, Rs1(w))), Signed(ImmI(w))))
  {
    hide Opcode, Funct7, Funct3, Rs1, Rd, Reg, Signed, Word, ImmI, ImmWAction, OpImmWResult;
    ImmWActionMeans(w, r);
  }

  // ---- Jumps ------------------------------------------------------------------------------------------------

  lemma EvenIs(v: bv64)
    ensures Even(v) == Sub(v, And(v, Ones(1))) && ToNat(1) == 1
  {}

  lemma EvenWord(v: bv64, x: int)
    requires v == Word(x)
    ensures Even(v) == Word(x - x % 2)
  {
    hide ToNat, Word, Even, Sub, And, Ones;
    EvenIs(v);
    LowBits(v, 1);
    assert Pow2(1) == 2;
    SubMeans(v, And(v, Ones(1)));
    ModTwice(x);
    Parity(x);
    CongruentSum(x % TWO64, x, x % 2, x % 2, TWO64);
    IsWord(Even(v), x - x % 2);
  }

  lemma Parity(x: int)
    ensures x % TWO64 % 2 == x % 2
  {}

  /** lui and auipc. */
  lemma UpperMeans(w: bv64, r: IntRegs, pc: bv64, len: bv64)
    ensures Opcode(w) == 0x37 ==> Effect32(w, r, pc, len) == Some(Effect(pc, Write(Rd(w), Word(Signed(ImmU(w))))))
    ensures Opcode(w) == 0x17 ==>
              Effect32(w, r, pc, len) == Some(Effect(pc, Write(Rd(w), Word(Signed(pc) + Signed(ImmU(w))))))
  {
    hide Opcode, Rd, ImmU, Signed, Word, Add, Sub;
    SignedWord(ImmU(w));
    Sum(pc, ImmU(w));
  }

  /** jal: where the step ends, the length included, and the link. */
  lemma JalMeans(w: bv64, r: IntRegs, pc: bv64, len: bv64)
    requires Opcode(w) == 0x6f
    ensures Effect32(w, r, pc, len).Some?
    ensures var e := Effect32(w, r, pc, len).value;
            && e.act == Write(Rd(w), Word(Signed(pc) + Signed(len)))
            && Add(e.pc, len) == Word(Signed(pc) + Signed(ImmJ(w)))
  {
    hide Opcode, Rd, ImmJ, Signed, Word, Add, Sub, Relative;
    NetRelative(pc, ImmJ(w), len);
    Sum(pc, len);
    Sum(pc, ImmJ(w));
  }

  lemma EvenSum(a: bv64, b: bv64)
    ensures var t := Signed(a) + Signed(b); Even(Add(a, b)) == Word(t - t % 2)
  {
    hide Signed, Word, Add, Sub, Even;
    Sum(a, b);
    EvenWord(Add(a, b), Signed(a) + Signed(b));
  }

  lemma JalrIs(w: bv64, r: IntRegs, pc: bv64, len: bv64)
    requires Opcode(w) == 0x67
    ensures Effect32(w, r, pc, len) ==
            Some(Effect(Absolute(Even(Add(Reg(r, Rs1(w)), ImmI(w))), len), Write(Rd(w), Add(pc, len))))
  {
    hide Opcode, Rs1, Rd, Reg, ImmI, Add, Even, Absolute, LoadAction, StoreAction, ImmAction, ImmWAction, RegAction,
      RegWAction, BranchEffect;
  }

  /** jalr. */
  lemma JalrMeans(w: bv64, r: IntRegs, pc: bv64, len: bv64)
    requires Opcode(w) == 0x67
    ensures Effect32(w, r, pc, len).Some?
    ensures var e, t := Effect32(w, r, pc, len).value, Signed(Reg(r, Rs1(w))) + Signed(ImmI(w));
            && e.act == Write(Rd(w), Word(Signed(pc) + Signed(len)))
            && Add(e.pc, len) == Word(t - t % 2)
  {
    hide Opcode, Rs1, Rd, Reg, ImmI, Signed, Word, Add, Sub, Even, Absolute, Effect32;
    JalrIs(w, r, pc, len);
    NetAbsolute(Even(Add(Reg(r, Rs1(w)), ImmI(w))), len);
    Sum(pc, len);
    EvenSum(Reg(r, Rs1(w)), ImmI(w));
  }

  /** The branches. */
  lemma BranchMeans(w: bv64, r: IntRegs, pc: bv64, len: bv64)
    requires Opcode(w) == 0x63
    ensures Effect32(w, r, pc, len).Some?
    ensures var e, f3 := Effect32(w, r, pc, len).value, Funct3(w);
            var taken := Taken(f3, Signed(Reg(r, Rs1(w))), Signed(Reg(r, Rs2(w))));
            if f3 == 2 || f3 == 3 then e == Effect(pc, Raises(IllegalInstruction, w))
            else e.act == Idle && Add(e.pc, len) == Word(Signed(pc) + if taken then Signed(ImmB(w)) else Signed(len))
  {
    hide Opcode, Funct3, Rs1, Rs2, Reg, ImmB, Signed, Word, Add, Sub, Relative, BranchTaken, Taken;
    TakenMeans(Funct3(w), Reg(r, Rs1(w)), Reg(r, Rs2(w)));
    NetBranch(w, r, pc, len);
    Sum(pc, ImmB(w));
    Sum(pc, len);
  }

  /** fence does nothing, and every opcode outside the table is illegal. */
  lemma OtherOpcodes(w: bv64, r: IntRegs, pc: bv64, len: bv64)
    ensures Opcode(w) == 0x0f ==> Effect32(w, r, pc, len) == Some(Effect(pc, Idle))
    ensures Opcode(w) !in {0x03, 0x07, 0x0f, 0x13, 0x17, 0x1b, 0x23, 0x27, 0x33, 0x37, 0x3b, 0x43, 0x47, 0x4b, 0x4f,
                           0x53, 0x63, 0x67, 0x6f}
            ==> Effect32(w, r, pc, len) == Some(Effect(pc, Raises(IllegalInstruction, w)))
  {
    hide Opcode, LoadAction, StoreAction, ImmAction, ImmWAction, RegAction, RegWAction, BranchEffect, Add, Reg, ImmI;
  }
}
