/** How the emulator assembles a physical page from page-number fields (get_vpn, get_ppn and
    the two loops at the end of fetch_pte), and that this is the page the architecture defines. */
module Compose {
  import opened Bits
  import opened Pte
  import opened PageTable

  /** A page-number field moved to its place in an address: shifted left by 12 + 9j. */
  function Place(x: bv64, j: Level): bv64
  {
    match j
    case 0 => x << 12
    case 1 => x << 21
    case 2 => x << 30
    case 3 => x << 39
    case 4 => x << 48
  }

  predicate Paged(mode: bv64)
  {
    mode == SV39 || mode == SV48 || mode == SV57
  }

  /** Field `j` of a PTE's page number: nine bits, except for the wider top field. */
  function PpnField(pte: bv64, mode: bv64, j: Level): bv64
  {
    if mode == SV39 && j == 2 then (pte >> 28) & 0x03ff_ffff
    else if mode == SV48 && j == 3 then (pte >> 37) & 0x1_ffff
    else if mode == SV57 && j == 4 then (pte >> 46) & 0xff
    else NineBits(pte, j)
  }

  function NineBits(pte: bv64, j: Level): bv64
  {
    match j
    case 0 => (pte >> 10) & 0x1ff
    case 1 => (pte >> 19) & 0x1ff
    case 2 => (pte >> 28) & 0x1ff
    case 3 => (pte >> 37) & 0x1ff
    case 4 => (pte >> 46) & 0x1ff
  }

  function Fields(pte: bv64, mode: bv64): seq<bv64>
  {
    [PpnField(pte, mode, 0), PpnField(pte, mode, 1), PpnField(pte, mode, 2),
     PpnField(pte, mode, 3), PpnField(pte, mode, 4)]
  }

  /** Some page-number field below level `i` is nonzero exactly when the leaf is misaligned. */
  lemma MisalignedFields(pte: bv64, mode: bv64, i: Level)
    requires Paged(mode) && i < Levels(mode)
    ensures Misaligned(pte, i) <==> exists j :: 0 <= j < i && Fields(pte, mode)[j] != 0
  {
    var f := Fields(pte, mode);
    assert forall j: Level | j < i :: f[j] == NineBits(pte, j) by { hide NineBits; }
    hide PpnField;
    LowFields(pte, i);
  }

  lemma LowFields(pte: bv64, i: Level)
    ensures Misaligned(pte, i) <==> ((i > 0 && NineBits(pte, 0) != 0) || (i > 1 && NineBits(pte, 1) != 0)
                                     || (i > 2 && NineBits(pte, 2) != 0) || (i > 3 && NineBits(pte, 3) != 0))
  {}

  // ---- The fields in place make up the page -------------------------------------------------

  /** Field `j` in place: from the address below level `i`, from the PTE from it up. */
  function Part(pte: bv64, va: bv64, mode: bv64, i: Level, j: Level): bv64
  {
    Place(if j < i then Vpn(va, j) else PpnField(pte, mode, j), j)
  }

  /** The union of the first `n` fields in place: what the two loops at the end of fetch_pte
      accumulate. */
  function Gather(pte: bv64, va: bv64, mode: bv64, i: Level, n: nat): bv64
    requires n <= 5
  {
    if n == 0 then 0 else Or(Gather(pte, va, mode, i, n - 1), Part(pte, va, mode, i, n - 1))
  }

  lemma SomeLevels(mode: bv64)
    requires Levels(mode) > 0
    ensures Paged(mode)
  {}

  lemma GatherNone(pte: bv64, va: bv64, mode: bv64, i: Level)
    ensures Gather(pte, va, mode, i, 0) == 0
  {}

  lemma GatherNext(pte: bv64, va: bv64, mode: bv64, i: Level, j: Level)
    ensures Gather(pte, va, mode, i, j + 1) ==
            Or(Gather(pte, va, mode, i, j), Place(if j < i then Vpn(va, j) else PpnField(pte, mode, j), j))
  {
    hide Or, Place, Vpn, PpnField;
  }

  lemma Chain3(a: bv64, b: bv64, c: bv64)
    ensures Or(Or(Or(0, a), b), c) == 0 | a | b | c
  {}

  lemma Sv39Parts(pte: bv64, va: bv64, i: Level)
    requires 0 < i < 3
    ensures var p := (j: Level) => Part(pte, va, SV39, i, j); 0 | p(0) | p(1) | p(2) == PhysBase(pte, va, i)
  {
    match i
    case 1 =>
    case 2 =>
  }

  lemma Sv48Parts(pte: bv64, va: bv64, i: Level)
    requires 0 < i < 4
    ensures var p := (j: Level) => Part(pte, va, SV48, i, j); 0 | p(0) | p(1) | p(2) | p(3) == PhysBase(pte, va, i)
  {
    match i
    case 1 =>
    case 2 =>
    case 3 =>
  }

  lemma Sv57Parts(pte: bv64, va: bv64, i: Level)
    requires 0 < i < 5
    ensures var p := (j: Level) => Part(pte, va, SV57, i, j);
            0 | p(0) | p(1) | p(2) | p(3) | p(4) == PhysBase(pte, va, i)
  {
    match i
    case 1 =>
    case 2 =>
    case 3 =>
    case 4 =>
  }

  lemma Chain4(a: bv64, b: bv64, c: bv64, d: bv64)
    ensures Or(Or(Or(Or(0, a), b), c), d) == 0 | a | b | c | d
  {}

  lemma Chain5(a: bv64, b: bv64, c: bv64, d: bv64, e: bv64)
    ensures Or(Or(Or(Or(Or(0, a), b), c), d), e) == 0 | a | b | c | d | e
  {}

  lemma GatherUnrolled(pte: bv64, va: bv64, mode: bv64, i: Level)
    ensures var p := (j: Level) => Part(pte, va, mode, i, j);
            && Gather(pte, va, mode, i, 3) == Or(Or(Or(0, p(0)), p(1)), p(2))
            && Gather(pte, va, mode, i, 4) == Or(Or(Or(Or(0, p(0)), p(1)), p(2)), p(3))
            && Gather(pte, va, mode, i, 5) == Or(Or(Or(Or(Or(0, p(0)), p(1)), p(2)), p(3)), p(4))
  {
    hide Or, Part;
    forall n: nat | 1 <= n <= 5
      ensures Gather(pte, va, mode, i, n) == Or(Gather(pte, va, mode, i, n - 1), Part(pte, va, mode, i, n - 1))
    {}
    assert Gather(pte, va, mode, i, 0) == 0;
    assert Gather(pte, va, mode, i, 1) == Or(0, Part(pte, va, mode, i, 0));
    assert Gather(pte, va, mode, i, 2) == Or(Gather(pte, va, mode, i, 1), Part(pte, va, mode, i, 1));
  }

  /** The gathered fields are the page the architecture defines. */
  lemma GatheredIsPhysBase(pte: bv64, va: bv64, mode: bv64, i: Level)
    requires Paged(mode) && 0 < i < Levels(mode)
    ensures Gather(pte, va, mode, i, Levels(mode)) == PhysBase(pte, va, i)
  {
    hide Or, Part, PhysBase, Gather;
    if mode == SV39 {
      GatheredSv39(pte, va, i);
    } else if mode == SV48 {
      GatheredSv48(pte, va, i);
    } else {
      GatheredSv57(pte, va, i);
    }
  }

  lemma GatheredSv39(pte: bv64, va: bv64, i: Level)
    requires 0 < i < 3
    ensures Gather(pte, va, SV39, i, 3) == PhysBase(pte, va, i)
  {
    hide Or, Part, PhysBase, Gather;
    GatherUnrolled(pte, va, SV39, i);
    Chain3(Part(pte, va, SV39, i, 0), Part(pte, va, SV39, i, 1), Part(pte, va, SV39, i, 2));
    Sv39Parts(pte, va, i);
  }

  lemma GatheredSv48(pte: bv64, va: bv64, i: Level)
    requires 0 < i < 4
    ensures Gather(pte, va, SV48, i, 4) == PhysBase(pte, va, i)
  {
    hide Or, Part, PhysBase, Gather;
    GatherUnrolled(pte, va, SV48, i);
    Chain4(Part(pte, va, SV48, i, 0), Part(pte, va, SV48, i, 1), Part(pte, va, SV48, i, 2), Part(pte, va, SV48, i, 3));
    Sv48Parts(pte, va, i);
  }

  lemma GatheredSv57(pte: bv64, va: bv64, i: Level)
    requires 0 < i < 5
    ensures Gather(pte, va, SV57, i, 5) == PhysBase(pte, va, i)
  {
    hide Or, Part, PhysBase, Gather;
    GatherUnrolled(pte, va, SV57, i);
    Chain5(Part(pte, va, SV57, i, 0), Part(pte, va, SV57, i, 1), Part(pte, va, SV57, i, 2), Part(pte, va, SV57, i, 3),
           Part(pte, va, SV57, i, 4));
    Sv57Parts(pte, va, i);
  }

  lemma FieldsAre(ppn: seq<bv64>, pte: bv64, mode: bv64)
    requires |ppn| == 5 && forall i: Level | i < Levels(mode) :: ppn[i] == PpnField(pte, mode, i)
    ensures forall i: Level | i < Levels(mode) :: ppn[i] == Fields(pte, mode)[i]
  {
    hide PpnField;
  }

  /** For a leaf at level 0 the emulator shifts the whole page number. */
  lemma BottomPage(pte: bv64, va: bv64)
    ensures Ppn(pte) << 12 == PhysBase(pte, va, 0)
  {
    hide Ppn;
    OrZero(Ppn(pte) << 12);
  }

  lemma OrZero(x: bv64)
    ensures x | 0 == x
  {}
}
