/** Page-table entries and virtual addresses: their fields, and how the fields react to
    setting the accessed and dirty bits. */
module Pte {

  type Level = i: nat | i < 5

  predicate HasV(pte: bv64) { pte & 0x01 != 0 }
  predicate HasR(pte: bv64) { pte & 0x02 != 0 }
  predicate HasW(pte: bv64) { pte & 0x04 != 0 }
  predicate HasX(pte: bv64) { pte & 0x08 != 0 }
  predicate HasU(pte: bv64) { pte & 0x10 != 0 }
  predicate HasA(pte: bv64) { pte & 0x40 != 0 }
  predicate HasD(pte: bv64) { pte & 0x80 != 0 }

  function SetA(pte: bv64): bv64 { pte | 0x40 }
  function SetD(pte: bv64): bv64 { pte | 0x80 }

  /** The PTE without its A and D bits. */
  function Clean(pte: bv64): bv64 { pte & 0xffff_ffff_ffff_ff3f }

  /** The 44-bit physical page number of a PTE. */
  function Ppn(pte: bv64): bv64 { (pte >> 10) & 0xfff_ffff_ffff }

  function PageOf(va: bv64): bv64 { va & 0xffff_ffff_ffff_f000 }

  /** The nine-bit page-number field of level `i`. */
  function Vpn(va: bv64, i: Level): bv64
  {
    match i
    case 0 => (va >> 12) & 0x1ff
    case 1 => (va >> 21) & 0x1ff
    case 2 => (va >> 30) & 0x1ff
    case 3 => (va >> 39) & 0x1ff
    case 4 => (va >> 48) & 0x1ff
  }

  /** The offset bits of a leaf at level `i`: 2^(12+9i) - 1. */
  function OffsetMask(i: Level): bv64
  {
    match i
    case 0 => 0xfff
    case 1 => 0x1f_ffff
    case 2 => 0x3fff_ffff
    case 3 => 0x7f_ffff_ffff
    case 4 => 0xffff_ffff_ffff
  }

  /** A leaf at level `i` is misaligned when a page-number bit below its size is set. */
  predicate Misaligned(pte: bv64, i: Level)
  {
    Overlaps(Ppn(pte), i)
  }

  predicate Overlaps(ppn: bv64, i: Level)
  {
    (ppn << 12) & OffsetMask(i) != 0
  }

  /** The page a leaf at level `i` maps `va` to: the leaf's page number with its low
      9i bits replaced by those of the virtual address. */
  function PhysBase(pte: bv64, va: bv64, i: Level): bv64
  {
    Frame(Ppn(pte), VpnPart(va, i), i)
  }

  function Frame(ppn: bv64, part: bv64, i: Level): bv64
  {
    match i
    case 0 => (ppn << 12) | part
    case 1 => ((ppn << 12) & 0xffff_ffff_ffe0_0000) | part
    case 2 => ((ppn << 12) & 0xffff_ffff_c000_0000) | part
    case 3 => ((ppn << 12) & 0xffff_ff80_0000_0000) | part
    case 4 => ((ppn << 12) & 0xffff_0000_0000_0000) | part
  }

  /** The bits of `va` between the 4 KiB offset and the size of a leaf at level `i`. */
  function VpnPart(va: bv64, i: Level): bv64
  {
    match i
    case 0 => 0
    case 1 => va & 0x1f_f000
    case 2 => va & 0x3fff_f000
    case 3 => va & 0x7f_ffff_f000
    case 4 => va & 0xffff_ffff_f000
  }

  // ---- Facts about single bits -------------------------------------------------------

  lemma CleanFlags(p: bv64)
    ensures HasV(Clean(p)) == HasV(p) && HasR(Clean(p)) == HasR(p) && HasW(Clean(p)) == HasW(p)
  {}

  lemma CleanMore(p: bv64)
    ensures HasX(Clean(p)) == HasX(p) && HasU(Clean(p)) == HasU(p) && Ppn(Clean(p)) == Ppn(p)
  {}

  lemma SetAFacts(p: bv64)
    ensures HasA(SetA(p)) && HasD(SetA(p)) == HasD(p) && Clean(SetA(p)) == Clean(p)
    ensures HasA(p) ==> SetA(p) == p
  {}

  lemma SetDFacts(p: bv64)
    ensures HasD(SetD(p)) && HasA(SetD(p)) == HasA(p) && Clean(SetD(p)) == Clean(p)
    ensures HasD(p) ==> SetD(p) == p
  {}

  /** PTEs that agree without A and D agree on everything else. */
  lemma SameClean(p: bv64, q: bv64)
    requires Clean(p) == Clean(q)
    ensures HasV(p) == HasV(q) && HasR(p) == HasR(q) && HasW(p) == HasW(q)
    ensures HasX(p) == HasX(q) && HasU(p) == HasU(q) && Ppn(p) == Ppn(q)
    ensures forall i: Level :: Misaligned(p, i) == Misaligned(q, i)
  {
    hide HasV, HasR, HasW, HasX, HasU, Ppn, Clean, Overlaps;
    CleanFlags(p);
    CleanFlags(q);
    CleanMore(p);
    CleanMore(q);
  }

  lemma VpnOfPage(va: bv64, i: Level)
    ensures Vpn(PageOf(va), i) == Vpn(va, i)
  {}

  lemma PhysBaseOfPage(pte: bv64, va: bv64, i: Level)
    ensures PhysBase(pte, PageOf(va), i) == PhysBase(pte, va, i)
  {
    hide Ppn, VpnPart, PageOf, Frame;
    VpnPartOfPage(va, i);
  }

  lemma VpnPartOfPage(va: bv64, i: Level)
    ensures VpnPart(PageOf(va), i) == VpnPart(va, i)
  {
    hide VpnPart;
    PartOfMasked(va, i);
  }

  lemma PartOfMasked(va: bv64, i: Level)
    ensures VpnPart(va & 0xffff_ffff_ffff_f000, i) == VpnPart(va, i)
  {}

  lemma PhysBaseSame(p: bv64, q: bv64, va: bv64, i: Level)
    requires Clean(p) == Clean(q)
    ensures PhysBase(p, va, i) == PhysBase(q, va, i)
  {
    hide Ppn, VpnPart, Clean, Frame;
    SameClean(p, q);
  }

  // ---- The bits of an address that translation looks at ------------------------------------------

  /** The numbers of levels of the modes of satp. */
  type LevelCount = n: nat | n == 0 || 3 <= n <= 5

  /** The low 12 + 9n bits of an address, all that `n` levels of tables and the offset use. */
  function Used(va: bv64, n: LevelCount): bv64
  {
    if n == 0 then va & 0xfff
    else if n == 3 then va & 0x7f_ffff_ffff
    else if n == 4 then va & 0xffff_ffff_ffff
    else va & 0x01ff_ffff_ffff_ffff
  }

  function Offset(va: bv64): bv64 { va & 0xfff }

  lemma FieldsOf39(va: bv64, i: Level)
    requires i < 3
    ensures Vpn(va & 0x7f_ffff_ffff, i) == Vpn(va, i) && VpnPart(va & 0x7f_ffff_ffff, i) == VpnPart(va, i)
  {}

  lemma FieldsOf48(va: bv64, i: Level)
    requires i < 4
    ensures Vpn(va & 0xffff_ffff_ffff, i) == Vpn(va, i) && VpnPart(va & 0xffff_ffff_ffff, i) == VpnPart(va, i)
  {}

  lemma FieldsOf57(va: bv64, i: Level)
    ensures Vpn(va & 0x01ff_ffff_ffff_ffff, i) == Vpn(va, i) && VpnPart(va & 0x01ff_ffff_ffff_ffff, i) == VpnPart(va, i)
  {}

  lemma FieldsOfUsed(va: bv64, n: LevelCount, i: Level)
    requires i < n
    ensures Vpn(Used(va, n), i) == Vpn(va, i) && VpnPart(Used(va, n), i) == VpnPart(va, i)
  {
    hide Vpn, VpnPart;
    if n == 3 {
      FieldsOf39(va, i);
    } else if n == 4 {
      FieldsOf48(va, i);
    } else {
      FieldsOf57(va, i);
    }
  }

  lemma OffsetOfUsed(va: bv64, n: LevelCount)
    ensures Offset(Used(va, n)) == Offset(va)
  {}

  /** Addresses that agree in the bits in use have the same fields. */
  lemma SameUsed(va: bv64, wa: bv64, n: LevelCount, i: Level)
    requires Used(va, n) == Used(wa, n) && i < n
    ensures Vpn(va, i) == Vpn(wa, i) && VpnPart(va, i) == VpnPart(wa, i) && Offset(va) == Offset(wa)
  {
    hide Used, Vpn, VpnPart, Offset;
    FieldsOfUsed(va, n, i);
    FieldsOfUsed(wa, n, i);
    OffsetOfUsed(va, n);
    OffsetOfUsed(wa, n);
  }
}
