/** Sv39/Sv48/Sv57 translation by the rules of the emulator, without any cache: the reference that
    its MMU is compared with. ArchWalk compares it with the Privileged Architecture in turn. */
module PageTable {
  import opened Memory
  import opened Pte

  datatype Option<+T> = None | Some(value: T)

  datatype Access = LoadAccess | StoreAccess | FetchAccess

  /** `Invalid` is what the emulator reads from the reserved value 2 of mstatus.MPP. */
  datatype Priv = User | Supervisor | Machine | Invalid

  /** The fields of satp that the MMU latches: the 4-bit mode and the root table's address. */
  datatype Root = Root(mode: bv64, table: nat)

  const BARE: bv64 := 0
  const SV39: bv64 := 8
  const SV48: bv64 := 9
  const SV57: bv64 := 10

  function ToNat(v: bv64): nat { v as nat }

  function Levels(mode: bv64): (n: LevelCount)
  {
    if mode == SV39 then 3 else if mode == SV48 then 4 else if mode == SV57 then 5 else 0
  }

  predicate BadPte(pte: bv64)
  {
    !HasV(pte) || (!HasR(pte) && HasW(pte))
  }

  predicate LeafPte(pte: bv64)
  {
    HasR(pte) || HasX(pte)
  }

  datatype Walk = Fault | Leaf(level: Level, addr: nat, pte: bv64)

  function PteAddr(va: bv64, table: nat, i: Level): nat
  {
    table + ToNat(Vpn(va, i)) * 8
  }

  /** The address of the table that a pointer PTE refers to; 44 bits times 4096 cannot wrap. */
  function TableOf(pte: bv64): (a: nat)
    ensures a % 8 == 0
  {
    hide ToNat;
    ToNat(Ppn(pte)) * 4096
  }

  /** The walk from level `i` and the table at `table` down: steps 2 to 4 and 6 of section 4.3.2, but
      for reserved bits and for PTEs outside memory, which read as 0. */
  function WalkFrom(m: Mem, va: bv64, table: nat, i: int): Walk
    requires i < 5
    decreases i + 1
  {
    if i < 0 then Fault
    else
      var pte := Load(m, PteAddr(va, table, i), 8);
      if BadPte(pte) then Fault
      else if LeafPte(pte) then
        if Misaligned(pte, i) then Fault else Leaf(i, PteAddr(va, table, i), pte)
      else WalkFrom(m, va, TableOf(pte), i - 1)
  }

  function WalkOf(m: Mem, root: Root, va: bv64): Walk
  {
    WalkFrom(m, va, root.table, Levels(root.mode) - 1)
  }

  /** Step 5 of section 4.3.2. The reserved privilege may only touch user data, under SUM. */
  predicate Permitted(pte: bv64, priv: Priv, sum: bool, mxr: bool, acc: Access)
  {
    && (match priv
        case User => HasU(pte)
        case Supervisor => HasU(pte) ==> sum && !acc.FetchAccess?
        case _ => HasU(pte) && sum && !acc.FetchAccess?)
    && (match acc
        case LoadAccess => HasR(pte) || (HasX(pte) && mxr)
        case StoreAccess => HasW(pte)
        case FetchAccess => HasX(pte))
  }

  /** The part of the hart's state that translation depends on. */
  datatype Ctx = Ctx(priv: Priv, mprv: bool, mpp: Priv, sum: bool, mxr: bool)

  function EffectivePriv(c: Ctx, acc: Access): Priv
  {
    if !acc.FetchAccess? && c.mprv then c.mpp else c.priv
  }

  predicate Bypass(root: Root, c: Ctx, acc: Access)
  {
    root.mode == BARE || EffectivePriv(c, acc) == Machine
  }

  /** A PTE after step 7 of section 4.3.2. */
  function Marked(pte: bv64, acc: Access): bv64
  {
    if acc.StoreAccess? then SetD(SetA(pte)) else SetA(pte)
  }

  function WithOffset(base: bv64, va: bv64): bv64
  {
    base | Offset(va)
  }

  /** Outcome of a translation: memory afterwards and the physical address, None on a page fault. */
  datatype Outcome = Outcome(mem: Mem, pa: Option<bv64>)

  function Translate(m: Mem, root: Root, c: Ctx, va: bv64, acc: Access): Outcome
  {
    if Bypass(root, c, acc) then Outcome(m, Some(va))
    else match WalkOf(m, root, va)
      case Fault => Outcome(m, None)
      case Leaf(i, addr, pte) =>
        if Permitted(pte, EffectivePriv(c, acc), c.sum, c.mxr, acc) then
          Outcome(Store(m, addr, 8, Marked(pte, acc)), Some(WithOffset(PhysBase(pte, va, i), va)))
        else Outcome(m, None)
  }

  // ---- The walk -------------------------------------------------------------------

  lemma WalkStep(m: Mem, va: bv64, table: nat, i: Level, pte: bv64)
    requires pte == Load(m, table + ToNat(Vpn(va, i)) * 8, 8)
    ensures WalkFrom(m, va, table, i) ==
            if !HasV(pte) || (!HasR(pte) && HasW(pte)) then Fault
            else if HasR(pte) || HasX(pte) then
              (if Misaligned(pte, i) then Fault else Leaf(i, table + ToNat(Vpn(va, i)) * 8, pte))
            else WalkFrom(m, va, TableOf(pte), i - 1)
  {
    hide Load, ToNat, Vpn, HasV, HasR, HasW, HasX, Misaligned;
  }

  lemma WalkStarts(m: Mem, root: Root, va: bv64)
    ensures WalkOf(m, root, va) == WalkFrom(m, va, root.table, Levels(root.mode) - 1)
  {}

  lemma WalkedOut(m: Mem, va: bv64, table: nat)
    ensures WalkFrom(m, va, table, -1) == Fault
  {}

  /** What a successful walk promises about its leaf. */
  lemma WalkLeaf(m: Mem, va: bv64, table: nat, i: int)
    requires i < 5
    ensures var w := WalkFrom(m, va, table, i);
            w.Leaf? ==> && w.level <= i
                        && w.pte == Load(m, w.addr, 8)
                        && !BadPte(w.pte) && LeafPte(w.pte) && !Misaligned(w.pte, w.level)
                        && (table % 8 == 0 ==> w.addr % 8 == 0)
    decreases i + 1
  {
    hide Load, BadPte, LeafPte, Misaligned, Vpn, ToNat;
  }

  /** A walk sees only the page part of an address. */
  lemma {:induction false} WalkOfPage(m: Mem, va: bv64, table: nat, i: int)
    requires i < 5
    ensures WalkFrom(m, PageOf(va), table, i) == WalkFrom(m, va, table, i)
    decreases i + 1
  {
    hide Load, BadPte, LeafPte, Misaligned, PageOf, Vpn, ToNat;
    if i >= 0 {
      VpnOfPage(va, i);
      var pte := Load(m, PteAddr(va, table, i), 8);
      WalkOfPage(m, va, TableOf(pte), i - 1);
    }
  }

  // ---- Accessed and dirty bits ------------------------------------------------------

  /** Every aligned word of the two memories agrees up to A and D. */
  ghost predicate MemSameButAD(m: Mem, m': Mem)
  {
    forall a :: a % 8 == 0 ==> Clean(Load(m, a, 8)) == Clean(Load(m', a, 8))
  }

  /** Changing only A and D bits changes no address's mapping. */
  lemma {:induction false} WalkSameButAD(m: Mem, m': Mem, va: bv64, table: nat, i: int)
    requires i < 5 && table % 8 == 0 && MemSameButAD(m, m')
    ensures match WalkFrom(m, va, table, i)
            case Fault => WalkFrom(m', va, table, i) == Fault
            case Leaf(l, a, p) =>
              a % 8 == 0 && WalkFrom(m', va, table, i) == Leaf(l, a, Load(m', a, 8))
              && Clean(p) == Clean(Load(m', a, 8))
    decreases i + 1
  {
    hide Load, Clean, HasV, HasR, HasW, HasX, HasU, Vpn, ToNat, Misaligned;
    if i >= 0 {
      var a := PteAddr(va, table, i);
      assert a % 8 == 0;
      var p, q := Load(m, a, 8), Load(m', a, 8);
      SameClean(p, q);
      if !BadPte(p) && !LeafPte(p) {
        WalkSameButAD(m, m', va, TableOf(p), i - 1);
      }
    }
  }

  lemma PermittedSame(p: bv64, q: bv64, priv: Priv, sum: bool, mxr: bool, acc: Access)
    requires Clean(p) == Clean(q)
    ensures Permitted(p, priv, sum, mxr, acc) == Permitted(q, priv, sum, mxr, acc)
  {
    hide Clean, HasV, HasR, HasW, HasX, HasU, ToNat, Misaligned;
    SameClean(p, q);
  }

  lemma CleanMarked(p: bv64, acc: Access)
    ensures Clean(Marked(p, acc)) == Clean(p)
    ensures HasA(Marked(p, acc)) && HasD(Marked(p, acc)) == (HasD(p) || acc.StoreAccess?)
  {
    hide Clean, SetA, SetD, HasA, HasD;
    SetAFacts(p);
    SetDFacts(SetA(p));
  }

  lemma NothingValid()
    ensures !HasV(0)
  {}

  /** A word read from RAM that is a valid PTE comes from a device: the address is in RAM. */
  lemma ValidInRam(m: Mem, a: int)
    requires HasV(Load(m, a, 8))
    ensures m.base <= a && a + 8 <= m.base + |m.data|
  {
    hide Value;
  }

  /** Changing only A and D of one aligned word of RAM keeps every word the same up to A and D. */
  lemma MarkWord(m: Mem, w: int, v: bv64)
    requires w % 8 == 0 && m.base <= w && w + 8 <= m.base + |m.data|
    requires Clean(Load(m, w, 8)) == Clean(v)
    ensures MemSameButAD(m, Store(m, w, 8, v))
    ensures Load(Store(m, w, 8, v), w, 8) == v
  {
    hide Clean, Load, Store;
    WordStored(m, w, v);
    forall a | a % 8 == 0
      ensures Clean(Load(m, a, 8)) == Clean(Load(Store(m, w, 8, v), a, 8))
    {
      if a != w {
        LoadElsewhere(m, w, 8, v, a, 8);
      }
    }
  }

  // ---- Stores elsewhere -------------------------------------------------------------

  /** The addresses of the PTEs a walk reads. */
  function Path(m: Mem, va: bv64, table: nat, i: int): seq<nat>
    requires i < 5
    decreases i + 1
  {
    if i < 0 then []
    else
      var a := PteAddr(va, table, i);
      var pte := Load(m, a, 8);
      [a] + if BadPte(pte) || LeafPte(pte) then [] else Path(m, va, TableOf(pte), i - 1)
  }

  function PathOf(m: Mem, root: Root, va: bv64): seq<nat>
  {
    Path(m, va, root.table, Levels(root.mode) - 1)
  }

  predicate Disjoint(path: seq<nat>, a: int, n: nat)
  {
    forall w | w in path :: w + 8 <= a || a + n <= w
  }

  /** A store that overlaps none of the PTEs a walk reads does not change the walk. */
  lemma {:induction false} WalkAfterStore(m: Mem, va: bv64, table: nat, i: int, a: int, n: nat, v: bv64)
    requires i < 5
    requires Disjoint(Path(m, va, table, i), a, n)
    ensures WalkFrom(Store(m, a, n, v), va, table, i) == WalkFrom(m, va, table, i)
    decreases i + 1
  {
    hide Load, Store, BadPte, LeafPte, Vpn, ToNat, Misaligned;
    if i >= 0 {
      var w := PteAddr(va, table, i);
      assert w in Path(m, va, table, i);
      LoadElsewhere(m, a, n, v, w, 8);
      var pte := Load(m, w, 8);
      if !BadPte(pte) && !LeafPte(pte) {
        var rest := Path(m, va, TableOf(pte), i - 1);
        assert Path(m, va, table, i) == [w] + rest;
        assert Disjoint(rest, a, n) by {
          forall x | x in rest
            ensures x + 8 <= a || a + n <= x
          {
            assert x in Path(m, va, table, i);
          }
        }
        WalkAfterStore(m, va, TableOf(pte), i - 1, a, n, v);
      }
    }
  }

  /** A mode that is none of the four has no levels: every translation faults. */
  lemma UnsupportedFaults(m: Mem, root: Root, c: Ctx, va: bv64, acc: Access)
    requires root.mode != BARE && root.mode != SV39 && root.mode != SV48 && root.mode != SV57
    requires EffectivePriv(c, acc) != Machine
    ensures Translate(m, root, c, va, acc) == Outcome(m, None)
  {
    hide Load, Store, Permitted, Marked, WithOffset, PhysBase, Misaligned, BadPte, LeafPte;
    WalkedOut(m, va, root.table);
  }

  // ---- Addresses that are not canonical -----------------------------------------------------------

  lemma {:induction false} WalkOfUsed(m: Mem, va: bv64, wa: bv64, n: LevelCount, table: nat, i: int)
    requires i < n && Used(va, n) == Used(wa, n)
    ensures WalkFrom(m, va, table, i) == WalkFrom(m, wa, table, i)
    decreases i + 1
  {
    hide Load, BadPte, LeafPte, Misaligned, Used, Vpn, ToNat;
    if i >= 0 {
      SameUsed(va, wa, n, i);
      var pte := Load(m, PteAddr(va, table, i), 8);
      WalkOfUsed(m, va, wa, n, TableOf(pte), i - 1);
    }
  }

  lemma FrameOfUsed(pte: bv64, va: bv64, wa: bv64, n: LevelCount, i: Level)
    requires i < n && Used(va, n) == Used(wa, n)
    ensures WithOffset(PhysBase(pte, va, i), va) == WithOffset(PhysBase(pte, wa, i), wa)
  {
    hide Ppn, VpnPart, Frame, Offset, Used;
    SameUsed(va, wa, n, i);
  }

  /** Only the low 12 + 9n bits of an address matter, n being the number of levels: there is no
      check that the rest are canonical, and every address translates as its aliases do. */
  lemma AliasesTranslate(m: Mem, root: Root, c: Ctx, va: bv64, wa: bv64, acc: Access)
    requires !Bypass(root, c, acc) && Used(va, Levels(root.mode)) == Used(wa, Levels(root.mode))
    ensures Translate(m, root, c, va, acc) == Translate(m, root, c, wa, acc)
  {
    hide Load, Store, WalkFrom, Permitted, Marked, WithOffset, PhysBase, Used, Bypass, Levels;
    var n: int := Levels(root.mode);
    WalkOfUsed(m, va, wa, n, root.table, n - 1);
    match WalkOf(m, root, va)
    case Fault =>
    case Leaf(i, _, pte) =>
      WalkLeaf(m, va, root.table, n - 1);
      FrameOfUsed(pte, va, wa, n, i);
  }
}
