/** Byte-addressed RAM as a value: little-endian words over a byte sequence. */
module Memory {
  import opened Bits

  const TWO64 := 0x1_0000_0000_0000_0000

  /** The contents of the RAM device, from `base` up to (not including) `base + |data|`. */
  datatype Mem = Mem(base: nat, data: seq<bv8>)

  ghost predicate ValidMem(m: Mem)
  {
    m.base % 8 == 0 && |m.data| % 8 == 0 && m.base + |m.data| <= TWO64
  }

  /** The test the bus makes to find the device that owns an address. */
  predicate InRam(m: Mem, a: int)
  {
    m.base <= a < m.base + |m.data|
  }

  function LowByte(v: bv64): bv8 { (v & 0xff) as bv8 }

  function HighBytes(v: bv64): bv64 { v >> 8 }

  function Cons(b: bv8, v: bv64): bv64 { (b as bv64) | (v << 8) }

  /** The `n` bytes of `v`, least significant first. */
  function Bytes(v: bv64, n: nat): (b: seq<bv8>)
    ensures |b| == n
    decreases n
  {
    if n == 0 then [] else [LowByte(v)] + Bytes(HighBytes(v), n - 1)
  }

  /** The value whose little-endian bytes are `b`. */
  function Value(b: seq<bv8>): bv64
  {
    if |b| == 0 then 0 else Cons(b[0], Value(b[1..]))
  }

  /** All ones in the low `n` bytes. */
  function Mask(n: nat): bv64
  {
    if n == 0 then 0 else Cons(0xff, Mask(n - 1))
  }

  lemma ConsParts(v: bv64, m: bv64)
    ensures Cons(LowByte(v), And(HighBytes(v), m)) == And(v, Cons(0xff, m))
  {}

  lemma AndZero(v: bv64)
    ensures And(v, 0) == 0
  {}

  lemma {:induction false} ValueOfBytes(v: bv64, n: nat)
    ensures Value(Bytes(v, n)) == And(v, Mask(n))
    decreases n
  {
    hide LowByte, HighBytes, Cons, And;
    if n > 0 {
      ValueOfBytes(HighBytes(v), n - 1);
      assert Bytes(v, n)[1..] == Bytes(HighBytes(v), n - 1);
      ConsParts(v, Mask(n - 1));
    } else {
      AndZero(v);
    }
  }

  lemma Mask8()
    ensures Mask(8) == 0xffff_ffff_ffff_ffff
  {
    assert Mask(2) == 0xffff;
    assert Mask(4) == 0xffff_ffff;
    assert Mask(6) == 0xffff_ffff_ffff;
  }

  /** The top byte is clear. */
  predicate Small(v: bv64) { v < 0x100_0000_0000_0000 }

  predicate Below(v: bv64, m: bv64) { v <= m }

  lemma ConsBelow(b: bv8, v: bv64, m: bv64)
    requires Below(v, m) && Small(m)
    ensures Below(Cons(b, v), Cons(0xff, m))
  {}

  lemma MaskSmall(n: nat)
    requires n <= 7
    ensures Small(Mask(n))
  {
    assert Mask(2) == 0xffff;
    assert Mask(4) == 0xffff_ffff;
    assert Mask(6) == 0xffff_ffff_ffff;
  }

  lemma BelowSmall(v: bv64, m: bv64)
    requires Below(v, m) && Small(m)
    ensures Small(v)
  {}

  lemma ZeroBelow()
    ensures Below(0, 0)
  {}

  lemma {:induction false} ValueBelow(b: seq<bv8>)
    requires |b| <= 8
    ensures Below(Value(b), Mask(|b|))
  {
    hide Cons, Below, Small;
    if |b| > 0 {
      ValueBelow(b[1..]);
      MaskSmall(|b| - 1);
      ConsBelow(b[0], Value(b[1..]), Mask(|b| - 1));
    } else {
      ZeroBelow();
    }
  }

  lemma LowOfCons(b: bv8, v: bv64)
    ensures LowByte(Cons(b, v)) == b
  {}

  lemma HighOfCons(b: bv8, v: bv64)
    requires Small(v)
    ensures HighBytes(Cons(b, v)) == v
  {}

  lemma {:induction false} BytesOfValue(b: seq<bv8>)
    requires |b| <= 8
    ensures Bytes(Value(b), |b|) == b
  {
    hide LowByte, HighBytes, Cons, Small, Below, Mask;
    if |b| > 0 {
      BytesOfValue(b[1..]);
      ValueBelow(b[1..]);
      MaskSmall(|b| - 1);
      BelowSmall(Value(b[1..]), Mask(|b| - 1));
      LowOfCons(b[0], Value(b[1..]));
      HighOfCons(b[0], Value(b[1..]));
    }
  }

  /** `n` bytes at address `a`; zero when they do not all lie in RAM. */
  function Load(m: Mem, a: int, n: nat): bv64
  {
    if m.base <= a && a + n <= m.base + |m.data| then Value(m.data[a - m.base..a - m.base + n]) else 0
  }

  /** Memory after the low `n` bytes of `v` are written at address `a`. */
  function Store(m: Mem, a: int, n: nat, v: bv64): (m': Mem)
    ensures m'.base == m.base && |m'.data| == |m.data|
  {
    if m.base <= a && a + n <= m.base + |m.data| then
      var k := a - m.base;
      m.(data := m.data[..k] + Bytes(v, n) + m.data[k + n..])
    else m
  }

  lemma LoadStored(m: Mem, a: int, n: nat, v: bv64)
    requires m.base <= a && a + n <= m.base + |m.data|
    ensures Load(Store(m, a, n, v), a, n) == And(v, Mask(n))
  {
    hide Bytes, Value, Mask, And;
    var k := a - m.base;
    assert Store(m, a, n, v).data[k..k + n] == Bytes(v, n);
    ValueOfBytes(v, n);
  }

  lemma AllOnes(v: bv64)
    ensures And(v, 0xffff_ffff_ffff_ffff) == v
  {}

  lemma WordStored(m: Mem, a: int, v: bv64)
    requires m.base <= a && a + 8 <= m.base + |m.data|
    ensures Load(Store(m, a, 8, v), a, 8) == v
  {
    hide Load, Store, Mask, And;
    LoadStored(m, a, 8, v);
    Mask8();
    AllOnes(v);
  }

  lemma LoadElsewhere(m: Mem, a: int, n: nat, v: bv64, b: int, l: nat)
    requires b + l <= a || a + n <= b
    ensures Load(Store(m, a, n, v), b, l) == Load(m, b, l)
  {
    hide Bytes, Value;
    var m' := Store(m, a, n, v);
    if m.base <= b && b + l <= m.base + |m.data| {
      var d, d', j := m.data, m'.data, b - m.base;
      forall x | j <= x < j + l
        ensures d'[x] == d[x]
      {}
      assert d'[j..j + l] == d[j..j + l];
    }
  }

  lemma LoadOutside(m: Mem, a: int, n: nat)
    requires !InRam(m, a) && n > 0
    ensures Load(m, a, n) == 0
  {}

  lemma StoreOutside(m: Mem, a: int, n: nat, v: bv64)
    requires !InRam(m, a) && n > 0
    ensures Store(m, a, n, v) == m
  {}

  lemma OutsideStore(m: Mem, a: int, n: nat, v: bv64)
    requires a < m.base || a + n > m.base + |m.data|
    ensures Store(m, a, n, v) == m
  {}

  lemma StoreLoaded(m: Mem, a: int, n: nat)
    requires n <= 8
    ensures Store(m, a, n, Load(m, a, n)) == m
  {
    hide Bytes, Value;
    if m.base <= a && a + n <= m.base + |m.data| {
      var k := a - m.base;
      BytesOfValue(m.data[k..k + n]);
      assert m.data == m.data[..k] + m.data[k..k + n] + m.data[k + n..];
    }
  }
}
