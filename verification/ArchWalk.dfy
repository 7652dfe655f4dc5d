/** The page walk of section 4.3.2 of the Privileged Architecture v1.12, and exactly when the
    emulator's walk departs from it: it ignores the reserved bits of a PTE, and turns the access
    fault of a PTE outside memory into a page fault. */
module ArchWalk {
  import opened Memory
  import opened Pte
  import opened PageTable

  /** Bits 63 to 54, without the extensions that use them, and D, A and U of a pointer. */
  predicate Reserved(pte: bv64)
  {
    HighBits(pte) || (!LeafPte(pte) && (HasD(pte) || HasA(pte) || HasU(pte)))
  }

  predicate HighBits(pte: bv64) { pte & 0xffc0_0000_0000_0000 != 0 }

  /** The PTE can be read. */
  predicate Readable(m: Mem, a: int)
  {
    m.base <= a && a + 8 <= m.base + |m.data|
  }

  datatype ArchResult = PageFaulted | AccessFaulted | Found(level: Level, addr: nat, pte: bv64)

  /** Steps 2 to 4 and 6, from level `i` and the table at `table` down. */
  function ArchFrom(m: Mem, va: bv64, table: nat, i: int): ArchResult
    requires i < 5
    decreases i + 1
  {
    if i < 0 then PageFaulted
    else
      var a := PteAddr(va, table, i);
      var pte := Load(m, a, 8);
      if !Readable(m, a) then AccessFaulted
      else if BadPte(pte) || Reserved(pte) then PageFaulted
      else if LeafPte(pte) then
        if Misaligned(pte, i) then PageFaulted else Found(i, a, pte)
      else ArchFrom(m, va, TableOf(pte), i - 1)
  }

  predicate Unreserved(m: Mem, path: seq<nat>)
  {
    forall a | a in path :: !Reserved(Load(m, a, 8))
  }

  /** The emulator's walk ends at a PTE that cannot be read. */
  predicate EndsOutside(m: Mem, path: seq<nat>)
  {
    path != [] && !Readable(m, path[|path| - 1])
  }

  lemma NothingReserved()
    ensures !Reserved(0) && BadPte(0)
  {}

  /** The emulator reads 0, which is not valid. */
  lemma Unread(m: Mem, a: int)
    requires !Readable(m, a)
    ensures Load(m, a, 8) == 0
  {
    hide Value;
  }

  lemma UnreservedNext(m: Mem, a: nat, rest: seq<nat>)
    ensures Unreserved(m, [a] + rest) <==> !Reserved(Load(m, a, 8)) && Unreserved(m, rest)
  {
    hide Load, Reserved;
    assert forall b :: b in [a] + rest <==> b == a || b in rest;
  }

  /** The architecture finds a leaf if and only if the emulator does and no PTE it read has a reserved
      bit set, and then the same leaf. It raises an access fault if and only if the emulator's walk
      ends outside memory and no PTE it read has a reserved bit set. */
  lemma {:induction false} WalkAgrees(m: Mem, va: bv64, table: nat, i: int)
    requires i < 5
    ensures var x, w, path := ArchFrom(m, va, table, i), WalkFrom(m, va, table, i), Path(m, va, table, i);
            && (x.Found? <==> w.Leaf? && Unreserved(m, path))
            && (x.Found? ==> w == Leaf(x.level, x.addr, x.pte))
            && (x.AccessFaulted? <==> EndsOutside(m, path) && Unreserved(m, path))
    decreases i + 1
  {
    hide Load, BadPte, LeafPte, Misaligned, Vpn, ToNat, Reserved, Unreserved;
    if i < 0 {
      assert Unreserved(m, []) by { NoneReserved(m); }
    } else {
      var a := PteAddr(va, table, i);
      var pte := Load(m, a, 8);
      if !Readable(m, a) {
        Unread(m, a);
        NothingReserved();
      }
      var rest := if BadPte(pte) || LeafPte(pte) then [] else Path(m, va, TableOf(pte), i - 1);
      UnreservedNext(m, a, rest);
      NoneReserved(m);
      if !BadPte(pte) && !LeafPte(pte) {
        WalkAgrees(m, va, TableOf(pte), i - 1);
        LastOf(a, rest);
        PathSome(m, va, TableOf(pte), i - 1);
      }
    }
  }

  lemma NoneReserved(m: Mem)
    ensures Unreserved(m, [])
  {}

  lemma LastOf(a: nat, rest: seq<nat>)
    ensures rest != [] ==> ([a] + rest)[|[a] + rest| - 1] == rest[|rest| - 1]
  {}

  lemma PathSome(m: Mem, va: bv64, table: nat, i: int)
    requires i < 5
    ensures i >= 0 ==> Path(m, va, table, i) != []
  {
    hide Load, BadPte, LeafPte, Vpn, ToNat;
  }

  // ---- Whole translations ---------------------------------------------------------------------------

  datatype ArchOutcome = PageFault | AccessFault | Translated(mem: Mem, pa: bv64)

  /** The algorithm of section 4.3.2, with the A and D bits set by the hart. */
  function ArchTranslate(m: Mem, root: Root, c: Ctx, va: bv64, acc: Access): ArchOutcome
  {
    if Bypass(root, c, acc) then Translated(m, va)
    else match ArchFrom(m, va, root.table, Levels(root.mode) - 1)
      case PageFaulted => PageFault
      case AccessFaulted => AccessFault
      case Found(i, addr, pte) =>
        if Permitted(pte, EffectivePriv(c, acc), c.sum, c.mxr, acc) then
          Translated(Store(m, addr, 8, Marked(pte, acc)), WithOffset(PhysBase(pte, va, i), va))
        else PageFault
  }

  /** The emulator, which knows page faults only, does the same. */
  predicate SameOutcome(x: ArchOutcome, m: Mem, r: Outcome)
  {
    match x
    case PageFault => r == Outcome(m, None)
    case AccessFault => false
    case Translated(m', pa) => r == Outcome(m', Some(pa))
  }

  /** The emulator translates as the architecture does if and only if translation is bypassed, or no
      PTE with a reserved bit led to a physical address and the walk did not end outside memory. */
  lemma TranslateAgrees(m: Mem, root: Root, c: Ctx, va: bv64, acc: Access)
    ensures var r, path := Translate(m, root, c, va, acc), PathOf(m, root, va);
            SameOutcome(ArchTranslate(m, root, c, va, acc), m, r) <==>
            || Bypass(root, c, acc)
            || ((r.pa.Some? ==> Unreserved(m, path)) && !(EndsOutside(m, path) && Unreserved(m, path)))
  {
    hide Load, Store, WalkFrom, ArchFrom, Path, Permitted, Marked, WithOffset, PhysBase, Bypass,
      Unreserved, EndsOutside;
    WalkAgrees(m, va, root.table, Levels(root.mode) - 1);
  }

  /** A readable leaf with bit 54 set, which the emulator accepts. */
  lemma ReservedLeaf(m: Mem, va: bv64, table: nat)
    requires Load(m, PteAddr(va, table, 0), 8) == 0x0040_0000_0000_00df
    ensures WalkFrom(m, va, table, 0) == Leaf(0, PteAddr(va, table, 0), 0x0040_0000_0000_00df)
    ensures ArchFrom(m, va, table, 0) == PageFaulted
  {
    hide Load, Vpn, ToNat;
    ReservedBits();
    ValidInRam(m, PteAddr(va, table, 0));
  }

  lemma ReservedBits()
    ensures Reserved(0x0040_0000_0000_00df) && !BadPte(0x0040_0000_0000_00df) && LeafPte(0x0040_0000_0000_00df)
    ensures HasV(0x0040_0000_0000_00df) && !Misaligned(0x0040_0000_0000_00df, 0)
  {}
}
