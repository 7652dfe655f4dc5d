/** What translations may do to memory: set A and D in leaf PTEs, and nothing else. */
module Marking {
  import opened Memory
  import opened Pte
  import opened PageTable

  /** `q` is `p` with none or more of A and D set; no bit is cleared. */
  predicate Grown(p: bv64, q: bv64)
  {
    Clean(p) == Clean(q) && (HasA(p) ==> HasA(q)) && (HasD(p) ==> HasD(q))
  }

  /** The word at `a` is the leaf PTE of some virtual address. */
  ghost predicate IsLeaf(m: Mem, root: Root, a: int)
  {
    exists va :: WalkOf(m, root, va).Leaf? && WalkOf(m, root, va).addr == a
  }

  ghost predicate WordMarked(m: Mem, m': Mem, root: Root, a: int)
  {
    Load(m', a, 8) == Load(m, a, 8) || (Grown(Load(m, a, 8), Load(m', a, 8)) && IsLeaf(m, root, a))
  }

  /** `m'` is `m` with A and D bits set in leaf PTEs of the tables at `root`. */
  ghost predicate OnlyMarked(m: Mem, m': Mem, root: Root)
  {
    && m'.base == m.base && |m'.data| == |m.data|
    && forall a | a % 8 == 0 :: WordMarked(m, m', root, a)
  }

  lemma OnlyMarkedSelf(m: Mem, root: Root)
    ensures OnlyMarked(m, m, root)
  {}

  lemma GrownMark(p: bv64, acc: PageTable.Access)
    ensures Grown(p, Marked(p, acc))
  {
    hide HasA, HasD, SetA, SetD, Clean;
    SetAFacts(p);
    SetDFacts(SetA(p));
  }

  /** One translation only marks. */
  lemma TranslateOnlyMarks(m: Mem, root: Root, c: Ctx, va: bv64, acc: PageTable.Access)
    requires root.table % 8 == 0
    ensures OnlyMarked(m, Translate(m, root, c, va, acc).mem, root)
  {
    hide Grown, Load, Store, WalkFrom, Permitted, Marked, PhysBase, WithOffset, BadPte, LeafPte, Misaligned, Bypass;
    var m' := Translate(m, root, c, va, acc).mem;
    var w := WalkOf(m, root, va);
    OnlyMarkedSelf(m, root);
    if m' != m {
      WalkLeaf(m, va, root.table, Levels(root.mode) - 1);
      var v := Marked(w.pte, acc);
      GrownMark(w.pte, acc);
      forall a | a % 8 == 0
        ensures WordMarked(m, m', root, a)
      {
        if a == w.addr {
          if m.base <= a && a + 8 <= m.base + |m.data| {
            WordStored(m, a, v);
          } else {
            OutsideStore(m, a, 8, v);
          }
        } else {
          LoadElsewhere(m, w.addr, 8, v, a, 8);
        }
      }
    }
  }

  lemma MarkedSameButAD(m: Mem, m': Mem, root: Root)
    requires OnlyMarked(m, m', root)
    ensures MemSameButAD(m, m') && MemSameButAD(m', m)
  {
    hide Load, HasA, HasD, Clean, IsLeaf;
    forall a | a % 8 == 0
      ensures Clean(Load(m, a, 8)) == Clean(Load(m', a, 8))
    {
      assert WordMarked(m, m', root, a);
    }
  }

  /** Marking changes no address's mapping or permissions, under any root. */
  lemma MarkedKeepsMapping(m: Mem, m': Mem, root: Root, any: Root, va: bv64)
    requires OnlyMarked(m, m', root) && any.table % 8 == 0
    ensures match WalkOf(m, any, va)
            case Fault => WalkOf(m', any, va) == Fault
            case Leaf(i, a, p) =>
              var w := WalkOf(m', any, va);
              && w == Leaf(i, a, Load(m', a, 8)) && Grown(p, w.pte)
              && PhysBase(w.pte, va, i) == PhysBase(p, va, i)
              && forall priv, sum, mxr, acc ::
                   Permitted(w.pte, priv, sum, mxr, acc) == Permitted(p, priv, sum, mxr, acc)
  {
    hide Load, WalkFrom, Permitted, PhysBase, Grown, IsLeaf, Misaligned, BadPte, LeafPte, MemSameButAD;
    MarkedSameButAD(m, m', root);
    var i := Levels(any.mode) - 1;
    WalkSameButAD(m, m', va, any.table, i);
    WalkLeaf(m, va, any.table, i);
    if WalkOf(m, any, va).Leaf? {
      var a := WalkOf(m, any, va).addr;
      var p, q := Load(m, a, 8), Load(m', a, 8);
      assert WordMarked(m, m', root, a);
      GrownSelf(p);
      PhysBaseSame(p, q, va, WalkOf(m, any, va).level);
      forall priv, sum, mxr, acc
        ensures Permitted(q, priv, sum, mxr, acc) == Permitted(p, priv, sum, mxr, acc)
      {
        PermittedSame(q, p, priv, sum, mxr, acc);
      }
    }
  }

  lemma GrownSelf(p: bv64)
    ensures Grown(p, p)
  {}

  lemma IsLeafBack(m: Mem, m': Mem, root: Root, a: int)
    requires OnlyMarked(m, m', root) && root.table % 8 == 0 && IsLeaf(m', root, a)
    ensures IsLeaf(m, root, a)
  {
    hide Load, WalkFrom, MemSameButAD, OnlyMarked;
    MarkedSameButAD(m, m', root);
    var va :| WalkOf(m', root, va).Leaf? && WalkOf(m', root, va).addr == a;
    WalkSameButAD(m', m, va, root.table, Levels(root.mode) - 1);
    assert WalkOf(m, root, va).Leaf? && WalkOf(m, root, va).addr == a;
  }

  /** Marking twice is marking. */
  lemma OnlyMarkedTwice(m: Mem, m': Mem, m'': Mem, root: Root)
    requires OnlyMarked(m, m', root) && OnlyMarked(m', m'', root) && root.table % 8 == 0
    ensures OnlyMarked(m, m'', root)
  {
    hide Load, HasA, HasD, Clean, IsLeaf;
    forall a | a % 8 == 0
      ensures WordMarked(m, m'', root, a)
    {
      assert WordMarked(m, m', root, a) && WordMarked(m', m'', root, a);
      if IsLeaf(m', root, a) {
        IsLeafBack(m, m', root, a);
      }
    }
  }

  /** Every byte outside the leaf PTEs keeps its value. */
  lemma OtherBytesKept(m: Mem, m': Mem, root: Root, x: nat)
    requires ValidMem(m) && OnlyMarked(m, m', root) && x < |m.data|
    requires !IsLeaf(m, root, m.base + x - x % 8)
    ensures m'.data[x] == m.data[x]
  {
    hide Bytes, Value, Grown, IsLeaf;
    var k := x - x % 8;
    assert WordMarked(m, m', root, m.base + k);
    var b, b' := m.data[k..k + 8], m'.data[k..k + 8];
    BytesOfValue(b);
    BytesOfValue(b');
    assert b == b';
    assert m.data[x] == b[x % 8] && m'.data[x] == b'[x % 8];
  }
}
