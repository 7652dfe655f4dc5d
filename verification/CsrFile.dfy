/** The control and status registers and their aliased views (csr.cpp). */
module CsrFile {
  import opened Bits
  import PageTable

  const COUNT := 4096

  type Regs = r: seq<bv64> | |r| == COUNT witness seq(COUNT, _ => 0)

  type Address = a: nat | a < COUNT

  const SSTATUS: Address := 0x100
  const SIE: Address := 0x104
  const STVEC: Address := 0x105
  const SEPC: Address := 0x141
  const SCAUSE: Address := 0x142
  const STVAL: Address := 0x143
  const SIP: Address := 0x144
  const SATP: Address := 0x180
  const MSTATUS: Address := 0x300
  const MEDELEG: Address := 0x302
  const MIDELEG: Address := 0x303
  const MIE: Address := 0x304
  const MTVEC: Address := 0x305
  const MEPC: Address := 0x341
  const MCAUSE: Address := 0x342
  const MTVAL: Address := 0x343
  const MIP: Address := 0x344
  const MISA: Address := 0x301
  const CYCLE: Address := 0xc00

  /** A 64-bit hart with the extensions A, C, D, F, I and M, supervisor and user mode. */
  const MISA_RESET: bv64 := 0x8000_0000_0014_112d

  /** The bits of mstatus that sstatus shows. */
  function SstatusMask(): bv64 { 0x8000_0003_000d_e162 }

  function SsipMask(): bv64 { 2 }

  /** Bit 33 always reads as set in mstatus. */
  function WithUxl(v: bv64): bv64 { WriteBit(v, 33, true) }

  function LoadCsr(r: Regs, a: Address): bv64
  {
    if a == SSTATUS then And(r[MSTATUS], SstatusMask())
    else if a == SIE then And(r[MIE], r[MIDELEG])
    else if a == SIP then And(r[MIP], r[MIDELEG])
    else if a == MSTATUS then WithUxl(r[MSTATUS])
    else r[a]
  }

  function StoreCsr(r: Regs, a: Address, v: bv64): Regs
  {
    if a == SSTATUS then r[MSTATUS := Merge(r[MSTATUS], v, SstatusMask())]
    else if a == SIE then r[MIE := Merge(r[MIE], v, r[MIDELEG])]
    else if a == SIP then r[MIP := Merge(r[MIP], v, And(r[MIDELEG], SsipMask()))]
    else r[a := v]
  }

  function WriteCsrBit(r: Regs, a: Address, i: BitIndex, b: bool): Regs
  {
    StoreCsr(r, a, WriteBit(LoadCsr(r, a), i, b))
  }

  predicate CsrBit(r: Regs, a: Address, i: BitIndex)
  {
    ReadBit(LoadCsr(r, a), i)
  }

  function WriteMpp(r: Regs, mode: bv64): Regs
  {
    StoreCsr(r, MSTATUS, WriteBits(LoadCsr(r, MSTATUS), 12, 11, mode))
  }

  /** The mode a value of mstatus.MPP stands for. */
  function ModeOf(mpp: bv64): PageTable.Priv
  {
    if mpp == 0 then PageTable.User
    else if mpp == 1 then PageTable.Supervisor
    else if mpp == 3 then PageTable.Machine
    else PageTable.Invalid
  }

  function ModeCode(p: PageTable.Priv): bv64
  {
    match p
    case User => 0
    case Supervisor => 1
    case Machine => 3
    case Invalid => 0xff
  }

  function MppMode(r: Regs): PageTable.Priv
  {
    ModeOf(ReadBits(LoadCsr(r, MSTATUS), 12, 11))
  }

  // ---- View laws ---------------------------------------------------------------------

  /** The register behind an address, and the bits of it the address can write. */
  function Behind(a: Address): Address
  {
    if a == SSTATUS then MSTATUS else if a == SIE then MIE else if a == SIP then MIP else a
  }

  function Writable(r: Regs, a: Address): bv64
  {
    if a == SSTATUS then SstatusMask()
    else if a == SIE then r[MIDELEG]
    else if a == SIP then And(r[MIDELEG], SsipMask())
    else 0xffff_ffff_ffff_ffff
  }

  lemma MergeAll(o: bv64, v: bv64)
    ensures Merge(o, v, 0xffff_ffff_ffff_ffff) == v
  {}

  /** A store changes only the register behind the address, there only the writable bits,
      and these become the bits of the value. */
  lemma StoreIsLocal(r: Regs, a: Address, v: bv64)
    ensures StoreCsr(r, a, v) == r[Behind(a) := Merge(r[Behind(a)], v, Writable(r, a))]
    ensures And(StoreCsr(r, a, v)[Behind(a)], Not(Writable(r, a))) == And(r[Behind(a)], Not(Writable(r, a)))
    ensures And(StoreCsr(r, a, v)[Behind(a)], Writable(r, a)) == And(v, Writable(r, a))
  {
    hide Merge, And, Not, SstatusMask, SsipMask;
    MergeAll(r[a], v);
    MergeInside(r[Behind(a)], v, Writable(r, a));
    MergeOutside(r[Behind(a)], v, Writable(r, a));
  }

  /** What a masked view reads back after a store: the value under the mask. */
  lemma StoreThenLoad(r: Regs, a: Address, v: bv64)
    requires a == SSTATUS || a == SIE
    ensures LoadCsr(StoreCsr(r, a, v), a) == And(v, Writable(r, a))
  {
    hide And, Merge, SstatusMask;
    StoreIsLocal(r, a, v);
  }

  /** Through sip only a delegated software interrupt changes. */
  lemma StoreThenLoadSip(r: Regs, v: bv64, j: BitIndex)
    ensures ReadBit(LoadCsr(StoreCsr(r, SIP, v), SIP), j) ==
            if j == 1 && ReadBit(r[MIDELEG], 1) then ReadBit(v, 1) else ReadBit(LoadCsr(r, SIP), j)
  {
    hide ReadBit, Merge, SsipMask, And;
    var d := r[MIDELEG];
    var p := Merge(r[MIP], v, And(d, SsipMask()));
    MaskedAt(p, d, j);
    MaskedAt(r[MIP], d, j);
    MergeAt(r[MIP], v, And(d, SsipMask()), j);
    MaskedAt(d, SsipMask(), j);
    OnlySsip(j);
  }

  lemma OnlySsip(j: BitIndex)
    ensures ReadBit(SsipMask(), j) == (j == 1)
  {}

  /** Storing back what was read changes nothing, except that mstatus gains its constant bit. */
  lemma StoreBack(r: Regs, a: Address)
    ensures StoreCsr(r, a, LoadCsr(r, a)) == if a == MSTATUS then r[MSTATUS := WithUxl(r[MSTATUS])] else r
  {
    hide Merge, WithUxl, SstatusMask, SsipMask, And;
    MergeBack(r[MSTATUS], SstatusMask());
    MergeBack(r[MIE], r[MIDELEG]);
    SipBack(r[MIP], r[MIDELEG], SsipMask());
  }

  lemma SipBack(p: bv64, d: bv64, m: bv64)
    ensures Merge(p, And(p, d), And(d, m)) == p
  {}
}
