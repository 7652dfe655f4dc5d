/** The bytes of memory as a number, least significant first, and loads and stores in these terms. */
module LittleEndian {
  import opened Bits
  import opened Memory
  import opened PageTable
  import opened MulDiv
  import opened PageArithmetic
  import opened Numbers

  function NumberOf(b: seq<bv8>): nat
  {
    if b == [] then 0 else b[0] as nat + 256 * NumberOf(b[1..])
  }

  lemma ByteNumber(b: bv8)
    ensures ToNat(b as bv64) == b as nat < 256
  {}

  lemma ConsIs(b: bv8, v: bv64)
    ensures Cons(b, v) == Or(b as bv64, Shl(v, 8)) && And(b as bv64, Shl(v, 8)) == 0
  {}

  lemma EightPlaces()
    ensures ToNat(8) == 8 && Pow2(8) == 256
  {
    assert Pow2(4) == 16;
  }

  lemma ConsMeans(b: bv8, v: bv64)
    requires ToNat(v) * 256 < TWO64
    ensures ToNat(Cons(b, v)) == b as nat + 256 * ToNat(v)
  {
    hide ToNat, Cons, Or, And, Shl, Pow2;
    ByteNumber(b);
    ConsIs(b, v);
    EightPlaces();
    OrAdds(b as bv64, Shl(v, 8));
    ShlMultiplies(v, 8);
  }

  /** 256^n. */
  function Scale(n: nat): (p: nat)
    ensures p > 0
  {
    if n == 0 then 1 else 256 * Scale(n - 1)
  }

  lemma Scales()
    ensures Scale(0) == 1 && Scale(1) == 0x100 && Scale(2) == 0x1_0000 && Scale(4) == TWO32
    ensures Scale(7) == 0x100_0000_0000_0000 && Scale(8) == TWO64
  {
    assert Scale(2) == 0x1_0000;
    assert Scale(4) == 0x1_0000_0000;
    assert Scale(6) == 0x1_0000_0000_0000;
  }

  lemma {:induction false} NumberBelow(b: seq<bv8>)
    ensures NumberOf(b) < Scale(|b|)
    decreases |b|
  {
    if b != [] {
      ByteNumber(b[0]);
      NumberBelow(b[1..]);
    }
  }

  lemma {:induction false} ScaleGrows(k: nat, n: nat)
    requires k <= n
    ensures Scale(k) <= Scale(n)
    decreases n - k
  {
    if k < n {
      ScaleGrows(k + 1, n);
    }
  }

  /** A loaded word is the number of its bytes. */
  lemma {:induction false} ValueMeans(b: seq<bv8>)
    requires |b| <= 8
    ensures ToNat(Value(b)) == NumberOf(b)
    decreases |b|
  {
    hide ToNat, Cons;
    if b == [] {
      NoneLow();
    } else {
      ValueMeans(b[1..]);
      NumberBelow(b[1..]);
      ScaleGrows(|b| - 1, 7);
      Scales();
      ConsMeans(b[0], Value(b[1..]));
    }
  }

  lemma LowIs(v: bv64)
    ensures LowByte(v) as bv64 == And(v, Ones(8)) && HighBytes(v) == Shr(v, 8)
  {}

  lemma ByteParts(v: bv64)
    ensures LowByte(v) as nat == ToNat(v) % 256 && ToNat(HighBytes(v)) == ToNat(v) / 256
  {
    hide ToNat, LowByte, HighBytes, And, Ones, Shr, Pow2;
    LowIs(v);
    EightPlaces();
    ByteNumber(LowByte(v));
    LowBits(v, 8);
    ShrMeans(v, 8);
  }

  lemma SplitRemainder(x: nat, p: nat)
    requires p > 0
    ensures x % (256 * p) == x % 256 + 256 * (x / 256 % p)
  {
    Division(x, 256);
    Division(x / 256, p);
    var k := x / 256 / p;
    assert x == k * (256 * p) + (x % 256 + 256 * (x / 256 % p));
    ModUnique(x, x % 256 + 256 * (x / 256 % p), k, 256 * p);
  }

  /** The bytes stored are the low bytes of the number. */
  lemma {:induction false} BytesMean(v: bv64, n: nat)
    ensures NumberOf(Bytes(v, n)) == ToNat(v) % Scale(n)
    decreases n
  {
    hide ToNat, LowByte, HighBytes;
    if n > 0 {
      BytesMean(HighBytes(v), n - 1);
      assert Bytes(v, n)[1..] == Bytes(HighBytes(v), n - 1);
      ByteParts(v);
      SplitRemainder(ToNat(v), Scale(n - 1));
    }
  }

  predicate AllInRam(m: Mem, a: int, n: nat)
  {
    m.base <= a && a + n <= m.base + |m.data|
  }

  /** The bytes at an address. */
  function BytesAt(m: Mem, a: int, n: nat): seq<bv8>
    requires AllInRam(m, a, n)
  {
    m.data[a - m.base..a - m.base + n]
  }

  /** The number at an address; bytes that do not all lie in RAM read as 0. */
  function NumberAt(m: Mem, a: int, n: nat): nat
  {
    if AllInRam(m, a, n) then NumberOf(BytesAt(m, a, n)) else 0
  }

  /** Every load gives the number at its address. */
  lemma LoadsNumber(m: Mem, a: int, n: nat)
    requires n <= 8
    ensures ToNat(Load(m, a, n)) == NumberAt(m, a, n)
  {
    hide ToNat, Value, NumberOf;
    NoneLow();
    if AllInRam(m, a, n) {
      LoadMeans(m, a, n);
    }
  }

  lemma LoadMeans(m: Mem, a: int, n: nat)
    requires n <= 8 && AllInRam(m, a, n)
    ensures ToNat(Load(m, a, n)) == NumberOf(BytesAt(m, a, n))
  {
    hide ToNat, Value;
    ValueMeans(BytesAt(m, a, n));
  }

  /** `m'` is `m` with the low `n` bytes of the number at `a`, least significant first, and no other byte
      changed. */
  ghost predicate Rewritten(m: Mem, m': Mem, a: int, n: nat, x: int)
    requires AllInRam(m, a, n)
  {
    && m'.base == m.base && |m'.data| == |m.data|
    && NumberOf(BytesAt(m', a, n)) == x % Scale(n)
    && m'.data[..a - m.base] == m.data[..a - m.base] && m'.data[a - m.base + n..] == m.data[a - m.base + n..]
  }

  lemma StoreMeans(m: Mem, a: int, n: nat, v: bv64)
    requires AllInRam(m, a, n)
    ensures Rewritten(m, Store(m, a, n, v), a, n, ToNat(v))
  {
    hide ToNat, Bytes;
    BytesMean(v, n);
    var k := a - m.base;
    assert Store(m, a, n, v).data[k..k + n] == Bytes(v, n);
  }
}
