/** The emulator's objects: RAM, the register file of CSRs, the MMU with its translation
    cache, and the hart. Every method is proved against a function on the hart's state. */
module Emulator {
  import opened Memory
  import opened Pte
  import opened PageTable
  import opened Compose
  import opened Tlb
  import opened Bits
  import opened CsrFile
  import opened Hart
  import opened AccessPath
  import opened MulDiv

  /** RamDevice (peripherals/ram.cpp). */
  class Ram {
    const baseAddr: nat
    const data: array<bv8>

    constructor (start: nat, size: nat)
      ensures baseAddr == start && fresh(data) && data.Length == size && forall k | 0 <= k < size :: data[k] == 0
    {
      baseAddr := start;
      data := new bv8[size](_ => 0);
    }

    ghost function View(): Mem
      reads data
    {
      Mem(baseAddr, data[..])
    }

    method Load(address: nat, n: nat) returns (v: bv64)
      requires baseAddr <= address && address + n <= baseAddr + data.Length
      ensures v == Memory.Load(View(), address, n)
    {
      var k := address - baseAddr;
      assert data[..][k..k + n] == data[k..k + n];
      v := Value(data[k..k + n]);
    }

    method Store(address: nat, n: nat, v: bv64)
      requires baseAddr <= address && address + n <= baseAddr + data.Length
      modifies data
      ensures View() == Memory.Store(old(View()), address, n, v)
    {
      var k := address - baseAddr;
      var bytes := Bytes(v, n);
      forall i | 0 <= i < n {
        data[k + i] := bytes[i];
      }
      assert data[..] == old(data[..])[..k] + bytes + old(data[..])[k + n..];
    }
  }

  /** Csr (csr.cpp). */
  class Csr {
    const regs: array<bv64>

    constructor ()
      ensures fresh(regs) && regs.Length == COUNT
      ensures forall a | 0 <= a < COUNT :: regs[a] == if a == MISA then MISA_RESET else 0
    {
      regs := new bv64[COUNT](a => if a == MISA then MISA_RESET else 0);
    }

    ghost predicate Valid()
    {
      regs.Length == COUNT
    }

    ghost function View(): Regs
      requires Valid()
      reads regs
    {
      regs[..]
    }

    method Load(a: Address) returns (v: bv64)
      requires Valid()
      ensures v == LoadCsr(View(), a)
    {
      if a == SSTATUS {
        v := And(regs[MSTATUS], SstatusMask());
      } else if a == SIE {
        v := And(regs[MIE], regs[MIDELEG]);
      } else if a == SIP {
        v := And(regs[MIP], regs[MIDELEG]);
      } else if a == MSTATUS {
        v := WithUxl(regs[MSTATUS]);
      } else {
        v := regs[a];
      }
    }

    method Store(a: Address, v: bv64)
      requires Valid()
      modifies regs
      ensures View() == StoreCsr(old(View()), a, v)
    {
      if a == SSTATUS {
        regs[MSTATUS] := Merge(regs[MSTATUS], v, SstatusMask());
      } else if a == SIE {
        regs[MIE] := Merge(regs[MIE], v, regs[MIDELEG]);
      } else if a == SIP {
        var mask := And(regs[MIDELEG], SsipMask());
        regs[MIP] := Merge(regs[MIP], v, mask);
      } else {
        regs[a] := v;
      }
    }

    method ReadBit(a: Address, i: BitIndex) returns (b: bool)
      requires Valid()
      ensures b == CsrBit(View(), a, i)
    {
      var v := Load(a);
      b := Bits.ReadBit(v, i);
    }

    method WriteBit(a: Address, i: BitIndex, b: bool)
      requires Valid()
      modifies regs
      ensures View() == WriteCsrBit(old(View()), a, i, b)
    {
      var v := Load(a);
      Store(a, Bits.WriteBit(v, i, b));
    }

    method WriteMppMode(mode: Priv)
      requires Valid()
      modifies regs
      ensures View() == WriteMpp(old(View()), ModeCode(mode))
    {
      var v := Load(MSTATUS);
      Store(MSTATUS, WriteBits(v, 12, 11, ModeCode(mode)));
    }

    method ReadMppMode() returns (p: Priv)
      requires Valid()
      ensures p == MppMode(View())
    {
      var v := Load(MSTATUS);
      p := ModeOf(ReadBits(v, 12, 11));
    }
  }

  /** Cpu: the hart (cpu.cpp). */
  class Cpu {
    const regs: array<bv64>
    const csr: Csr
    const mmu: Mmu
    const ram: Ram
    var pc: bv64
    var mode: Priv
    var exc: Exception
    var excData: bv64
    var sleep: bool
    var reservations: set<bv64>

    /** The hart starts in machine mode at the start of RAM, its stack pointer at the end; no
        exception is pending, the MMU mirrors satp and the cache is empty, so coherent. */
    constructor (start: nat, size: nat, useTlb: bool)
      requires start + size < TWO64
      ensures Valid() && fresh(Repr())
      ensures View().mode == Machine && ToNat(View().pc) == start && ToNat(View().regs[2]) == start + size
      ensures View().exc == NoException && View().reservations == {} && View().cached == useTlb
      ensures View().tlb == FLUSHED && View().root == RootOf(LoadCsr(View().csr, SATP))
      ensures start % 8 == 0 && size % 8 == 0 ==> Sound(View())
    {
      hide ToNat, ReadBits, LoadCsr, InStep;
      regs := new bv64[REGS](k => if k == 2 then FromNat(start + size) else 0);
      csr := new Csr();
      mmu := new Mmu(useTlb);
      ram := new Ram(start, size);
      pc := FromNat(start);
      mode := Machine;
      exc := NoException;
      excData := 0;
      sleep := false;
      reservations := {};
      new;
      BareRoot(csr.View());
      if start % 8 == 0 && size % 8 == 0 {
        FlushedInStep(useTlb, ram.View(), Root(BARE, 0));
      }
    }

    ghost function Repr(): set<object>
    {
      {this, regs, csr, csr.regs, mmu, mmu.tlbCache, ram, ram.data}
    }

    ghost predicate Valid()
    {
      && regs.Length == REGS && csr.Valid() && mmu.tlbCache.Length == TLB_ENTRIES
      && regs != csr.regs && regs as object != mmu.tlbCache && regs as object != ram.data
      && csr.regs as object != mmu.tlbCache && csr.regs as object != ram.data && mmu.tlbCache as object != ram.data
    }

    ghost function View(): State
      requires Valid()
      reads Repr()
    {
      State(regs[..], pc, mode, csr.View(), mmu.useTlb, mmu.tlbCache[..], Root(mmu.mode, mmu.mppn), ram.View(),
            exc, excData, sleep, reservations)
    }

    /** Makes the fields of View() known where its definition is hidden. */
    lemma ViewFields()
      requires Valid()
      ensures View().cached == mmu.useTlb && View().tlb == mmu.tlbCache[..] && View().root == Root(mmu.mode, mmu.mppn)
      ensures View().exc == exc && View().excData == excData
      ensures View().pc == pc && View().mode == mode && View().sleep == sleep
    {}

    method SetException(e: Exception, data: bv64)
      requires Valid()
      modifies this`exc, this`excData
      ensures View() == Raise(old(View()), e, data)
    {
      exc := e;
      excData := data;
    }

    method ClearException()
      requires Valid()
      modifies this`exc, this`excData
      ensures View() == Raise(old(View()), NoException, 0)
    {
      exc := NoException;
      excData := 0;
    }

    method SetReg(rd: nat, v: bv64)
      requires Valid() && rd < REGS
      modifies regs
      ensures View() == old(View()).(regs := old(View()).regs[rd := v])
    {
      regs[rd] := v;
    }

    /** Bus::load, with RAM as the only device. */
    method BusLoad(a: nat, n: nat) returns (v: bv64)
      requires Valid()
      modifies this`exc, this`excData
      ensures var s := old(View());
              if InRam(s.mem, a) then View() == s && v == Memory.Load(s.mem, a, n)
              else View() == Raise(s, LoadAccessFault, 0) && v == 0
    {
      if ram.baseAddr <= a < ram.baseAddr + ram.data.Length {
        if a + n <= ram.baseAddr + ram.data.Length {
          v := ram.Load(a, n);
        } else {
          v := 0;
        }
      } else {
        SetException(LoadAccessFault, 0);
        v := 0;
      }
    }

    /** Bus::store. */
    method BusStore(a: nat, n: nat, v: bv64)
      requires Valid()
      modifies this`exc, this`excData, ram.data
      ensures var s := old(View());
              View() == if InRam(s.mem, a) then s.(mem := Memory.Store(s.mem, a, n, v))
                        else Raise(s, StoreAccessFault, 0)
    {
      if ram.baseAddr <= a < ram.baseAddr + ram.data.Length {
        if a + n <= ram.baseAddr + ram.data.Length {
          ram.Store(a, n, v);
        }
      } else {
        SetException(StoreAccessFault, 0);
      }
    }
  }

  /** An all-zero satp selects no translation. */
  lemma BareRoot(r: Regs)
    requires r[SATP] == 0
    ensures RootOf(LoadCsr(r, SATP)) == Root(BARE, 0)
  {
    hide ToNat, ReadBits;
    ZeroFields();
    Zero();
  }

  lemma ZeroFields()
    ensures ReadBits(0, 63, 60) == 0 && ReadBits(0, 43, 0) == 0
  {}

  /** The last of two updates of one slot stays. */
  lemma SetTwice<T>(t: seq<T>, k: nat, a: T, b: T)
    requires k < |t|
    ensures t[k := a][k] == a && t[k := a][k := b] == t[k := b]
  {}

  /** Mmu (mmu.cpp). */
  class Mmu {
    const useTlb: bool
    const tlbCache: array<Entry>
    var mode: bv64
    var mppn: nat

    constructor (useTlb: bool)
      ensures this.useTlb == useTlb && fresh(tlbCache) && tlbCache.Length == TLB_ENTRIES
      ensures tlbCache[..] == FLUSHED && mode == BARE && mppn == 0
    {
      this.useTlb := useTlb;
      mode := BARE;
      mppn := 0;
      tlbCache := new Entry[TLB_ENTRIES](_ => EMPTY);
    }

    method FlushTlb()
      requires tlbCache.Length == TLB_ENTRIES
      modifies tlbCache
      ensures tlbCache[..] == FLUSHED
    {
      for k := 0 to TLB_ENTRIES
        invariant forall j | 0 <= j < k :: tlbCache[j] == EMPTY
      {
        tlbCache[k] := Entry(0, 0, 0, 0, 0, false, false, false, false, false, false);
        tlbCache[k] := tlbCache[k].(age := RESET_AGE);
      }
    }

    /** Mmu::update: latch satp and flush. */
    method Update(cpu: Cpu)
      requires cpu.Valid() && cpu.mmu == this
      modifies this, tlbCache
      ensures cpu.Valid() && cpu.View() == MmuUpdate(old(cpu.View()))
    {
      var satp := cpu.csr.Load(SATP);
      mode := ReadBits(satp, 63, 60);
      mppn := (ToNat(ReadBits(satp, 43, 0)) * 4096) % 0x1_0000_0000;
      FlushTlb();
    }

    method SetCpuError(cpu: Cpu, address: bv64, acc: PageTable.Access)
      requires cpu.Valid() && cpu.mmu == this
      modifies cpu`exc, cpu`excData, tlbCache
      ensures cpu.View() == Raise(old(cpu.View()).(tlb := FLUSHED), PageFault(acc), address)
    {
      match acc {
        case LoadAccess => cpu.SetException(LoadPageFault, address);
        case StoreAccess => cpu.SetException(StorePageFault, address);
        case FetchAccess => cpu.SetException(InstructionPageFault, address);
      }
      FlushTlb();
    }

    /** get_vpn: the page-number fields of an address. */
    method GetVpn(address: bv64) returns (vpn: seq<bv64>)
      ensures |vpn| == 5 && forall i: Level | i < Levels(mode) :: vpn[i] == Vpn(address, i)
    {
      hide Vpn;
      vpn := [0, 0, 0, 0, 0];
      for i := 0 to Levels(mode)
        invariant |vpn| == 5
        invariant forall j: Level | j < i :: vpn[j] == Vpn(address, j)
      {
        vpn := vpn[i := Vpn(address, i)];
      }
    }

    /** get_ppn: the page-number fields of a PTE; the top one is wider. */
    method GetPpn(pte: bv64) returns (ppn: seq<bv64>)
      requires Paged(mode)
      ensures |ppn| == 5 && forall i: Level | i < Levels(mode) :: ppn[i] == PpnField(pte, mode, i)
    {
      hide NineBits;
      ppn := [0, 0, 0, 0, 0];
      for i := 0 to Levels(mode) - 1
        invariant |ppn| == 5
        invariant forall j: Level | j < i :: ppn[j] == NineBits(pte, j)
      {
        ppn := ppn[i := NineBits(pte, i)];
      }
      if mode == SV39 {
        ppn := ppn[2 := (pte >> 28) & 0x03ff_ffff];
      } else if mode == SV48 {
        ppn := ppn[3 := (pte >> 37) & 0x1_ffff];
      } else if mode == SV57 {
        ppn := ppn[4 := (pte >> 46) & 0xff];
      }
    }

    /** The hart is in state `s` except for slot `k`, which a walk is filling. */
    ghost predicate WalkingIn(cpu: Cpu, k: nat, s: State)
      requires cpu.Valid() && cpu.mmu == this && k < TLB_ENTRIES
      reads cpu.Repr()
    {
      var e := tlbCache[k];
      && cpu.View() == s.(tlb := s.tlb[k := e])
      && e == s.tlb[k].(pteAddr := e.pteAddr, pte := e.pte, read := e.read, write := e.write, execute := e.execute)
    }

    /** The hart is in state `s` except for the cache and the exception. */
    ghost predicate Astray(cpu: Cpu, s: State)
      requires cpu.Valid() && cpu.mmu == this
      reads cpu.Repr()
    {
      cpu.View() == s.(tlb := cpu.View().tlb, exc := cpu.View().exc, excData := cpu.View().excData)
    }

    /** The walk loop of fetch_pte, overwriting slot `k` on the way. Returns the level of the
        leaf, or a negative number after a fault. */
    method WalkTables(cpu: Cpu, address: bv64, acc: PageTable.Access, k: nat, vpn: seq<bv64>) returns (i: int)
      requires cpu.Valid() && cpu.mmu == this && k < TLB_ENTRIES
      requires |vpn| == 5 && forall j: Level | j < Levels(mode) :: vpn[j] == Vpn(address, j)
      modifies cpu`exc, cpu`excData, tlbCache
      ensures i < Levels(mode)
      ensures var s, e := old(cpu.View()), tlbCache[k];
              if i < 0 then
                WalkOf(s.mem, s.root, address) == Walk.Fault
                && cpu.View() == Raise(s.(tlb := FLUSHED), PageFault(acc), address)
              else
                && WalkingIn(cpu, k, s)
                && e.read == HasR(e.pte) && e.write == HasW(e.pte) && e.execute == HasX(e.pte)
                && WalkOf(s.mem, s.root, address) ==
                   if Misaligned(e.pte, i) then Walk.Fault else Leaf(i, e.pteAddr, e.pte)
    {
      hide Vpn, HasV, HasR, HasW, HasX, Memory.Load, Misaligned, ToNat, Ppn, WalkFrom, WalkOf, TableOf, Cpu.View,
        Levels, PageFault, Raise, WalkingIn, Astray;
      ghost var s := cpu.View();
      cpu.ViewFields();
      StartWalking(cpu, k);
      WalkStarts(s.mem, s.root, address);
      var levels: int := Levels(mode);
      var a: nat := mppn;
      i := levels - 1;
      while i >= 0
        invariant -1 <= i < levels
        invariant WalkingIn(cpu, k, s) && Astray(cpu, s)
        invariant WalkFrom(s.mem, address, a, i) == WalkOf(s.mem, s.root, address)
        decreases i
      {
        var pte := ReadNext(cpu, a + ToNat(vpn[i]) * 8, k, s);
        WalkStep(s.mem, address, a, i, pte);
        if !HasV(pte) || (!tlbCache[k].read && tlbCache[k].write) {
          Fail(cpu, address, acc, s);
          i := -1;
          return;
        }
        if tlbCache[k].read || tlbCache[k].execute {
          return;
        }
        a := TableOf(pte);
        i := i - 1;
      }
      WalkedOut(s.mem, address, a);
      Fail(cpu, address, acc, s);
    }

    lemma StartWalking(cpu: Cpu, k: nat)
      requires cpu.Valid() && cpu.mmu == this && k < TLB_ENTRIES
      ensures WalkingIn(cpu, k, cpu.View()) && Astray(cpu, cpu.View())
    {
      assert cpu.View().tlb[k := tlbCache[k]] == cpu.View().tlb;
    }

    method Fail(cpu: Cpu, address: bv64, acc: PageTable.Access, ghost s: State)
      requires cpu.Valid() && cpu.mmu == this && Astray(cpu, s)
      modifies cpu`exc, cpu`excData, tlbCache
      ensures cpu.View() == Raise(s.(tlb := FLUSHED), PageFault(acc), address)
    {
      hide Cpu.View, PageFault;
      SetCpuError(cpu, address, acc);
    }

    /** One step of a walk from state `s`. A walk that goes on has changed nothing but slot `k`. */
    method ReadNext(cpu: Cpu, pteAddr: nat, k: nat, ghost s: State) returns (pte: bv64)
      requires cpu.Valid() && cpu.mmu == this && k < TLB_ENTRIES && WalkingIn(cpu, k, s)
      modifies cpu`exc, cpu`excData, tlbCache
      ensures pte == Memory.Load(s.mem, pteAddr, 8)
      ensures var e := tlbCache[k];
              && e.pteAddr == pteAddr && e.pte == pte
              && e.read == HasR(pte) && e.write == HasW(pte) && e.execute == HasX(pte)
      ensures Astray(cpu, s) && (HasV(pte) ==> WalkingIn(cpu, k, s))
    {
      hide HasV, HasR, HasW, HasX, Memory.Load, Cpu.View;
      ghost var e := tlbCache[k];
      pte := ReadPte(cpu, pteAddr, k);
      SetTwice(s.tlb, k, e, tlbCache[k]);
    }

    /** One step of the walk: read a PTE into slot `k`. A read outside RAM gives 0, not valid. */
    method ReadPte(cpu: Cpu, pteAddr: nat, k: nat) returns (pte: bv64)
      requires cpu.Valid() && cpu.mmu == this && k < TLB_ENTRIES
      modifies cpu`exc, cpu`excData, tlbCache
      ensures pte == Memory.Load(old(cpu.View()).mem, pteAddr, 8)
      ensures var s := old(cpu.View());
              var e := s.tlb[k].(pteAddr := pteAddr, pte := pte,
                                 read := HasR(pte), write := HasW(pte), execute := HasX(pte));
              && tlbCache[k] == e
              && (if HasV(pte) then cpu.View() == s.(tlb := s.tlb[k := e])
                  else cpu.View() == s.(tlb := s.tlb[k := e], exc := cpu.exc, excData := cpu.excData))
    {
      hide HasV, HasR, HasW, HasX, Memory.Load;
      ghost var s := cpu.View();
      pte := cpu.BusLoad(pteAddr, 8);
      if !InRam(s.mem, pteAddr) {
        LoadOutside(s.mem, pteAddr, 8);
        NothingValid();
      }
      tlbCache[k] := tlbCache[k].(pteAddr := pteAddr, pte := pte,
                                  read := HasR(pte), write := HasW(pte), execute := HasX(pte));
    }

    /** The end of fetch_pte: the physical page of a leaf at level `i`. */
    method AssembleBase(address: bv64, pte: bv64, i: Level, vpn: seq<bv64>, ppn: seq<bv64>) returns (base: bv64)
      requires Paged(mode) && i < Levels(mode) && |vpn| == 5 && |ppn| == 5
      requires forall j: Level | j < Levels(mode) :: vpn[j] == Vpn(address, j) && ppn[j] == PpnField(pte, mode, j)
      ensures base == PhysBase(pte, address, i)
    {
      hide Vpn, PhysBase, PpnField, Place, Or, Ppn, Gather;
      if i == 0 {
        base := Ppn(pte) << 12;
        BottomPage(pte, address);
      } else {
        base := 0;
        GatherNone(pte, address, mode, i);
        for j := 0 to i
          invariant base == Gather(pte, address, mode, i, j)
        {
          GatherNext(pte, address, mode, i, j);
          base := Or(base, Place(vpn[j], j));
        }
        for j := i to Levels(mode)
          invariant base == Gather(pte, address, mode, i, j)
        {
          GatherNext(pte, address, mode, i, j);
          base := Or(base, Place(ppn[j], j));
        }
        GatheredIsPhysBase(pte, address, mode, i);
      }
    }

    /** A superpage whose low page-number fields are not all zero is misaligned. */
    method IsAligned(pte: bv64, i: Level, ppn: seq<bv64>) returns (b: bool)
      requires Paged(mode) && i < Levels(mode) && |ppn| == 5
      requires forall j: Level | j < Levels(mode) :: ppn[j] == PpnField(pte, mode, j)
      ensures b == !Misaligned(pte, i)
    {
      hide PpnField, Misaligned;
      FieldsAre(ppn, pte, mode);
      MisalignedFields(pte, mode, i);
      for j := 0 to i
        invariant forall l | 0 <= l < j :: ppn[l] == 0
      {
        if ppn[j] != 0 {
          return false;
        }
      }
      return true;
    }

    /** The tail of fetch_pte: the alignment check and the physical page. */
    method PageOfLeaf(address: bv64, pte: bv64, i: Level, vpn: seq<bv64>) returns (aligned: bool, base: bv64)
      requires i < Levels(mode) && |vpn| == 5 && forall j: Level | j < Levels(mode) :: vpn[j] == Vpn(address, j)
      ensures aligned == !Misaligned(pte, i) && (aligned ==> base == PhysBase(pte, address, i))
    {
      hide Vpn, Misaligned, PhysBase, PpnField, Levels;
      assert Paged(mode) by { SomeLevels(mode); }
      var ppn := GetPpn(pte);
      aligned := IsAligned(pte, i, ppn);
      base := 0;
      if aligned {
        base := AssembleBase(address, pte, i, vpn, ppn);
      }
    }

    /** fetch_pte. */
    method FetchPte(cpu: Cpu, address: bv64, acc: PageTable.Access, k: nat) returns (ok: bool)
      requires cpu.Valid() && cpu.mmu == this && k < TLB_ENTRIES
      modifies cpu`exc, cpu`excData, tlbCache
      ensures var s := old(cpu.View());
              match WalkOf(s.mem, s.root, address)
              case Fault => !ok && cpu.View() == Raise(s.(tlb := FLUSHED), PageFault(acc), address)
              case Leaf(i, a, pte) =>
                ok && cpu.View() == s.(tlb := s.tlb[k := FilledEntry(address, i, a, pte).(virtBase := s.tlb[k].virtBase,
                                                                                         age := s.tlb[k].age)])
    {
      hide Vpn, HasV, HasR, HasW, HasX, HasU, HasA, HasD, Misaligned, PhysBase, PpnField, WalkOf, PageOf, Levels;
      ghost var s := cpu.View();
      var vpn := GetVpn(address);
      var i := WalkTables(cpu, address, acc, k, vpn);
      if i < 0 {
        return false;
      }
      var pte := tlbCache[k].pte;
      var aligned, base := PageOfLeaf(address, pte, i, vpn);
      if !aligned {
        SetCpuError(cpu, address, acc);
        return false;
      }
      ghost var e := tlbCache[k];
      SetSlot(cpu, k, tlbCache[k].(user := HasU(pte), accessed := HasA(pte), dirty := HasD(pte), physBase := base));
      SetTwice(s.tlb, k, e, tlbCache[k]);
      ok := true;
    }

    method SetSlot(cpu: Cpu, k: nat, e: Entry)
      requires cpu.Valid() && cpu.mmu == this && k < TLB_ENTRIES
      modifies tlbCache
      ensures cpu.View() == old(cpu.View()).(tlb := old(cpu.View()).tlb[k := e]) && tlbCache[k] == e
    {
      tlbCache[k] := e;
    }

    /** The hit path of get_tlb_entry: slot `k` is used, the others grow older; those before
        `k` already did. */
    method Rejuvenate(k: nat, ghost t: Cache)
      requires k < TLB_ENTRIES == tlbCache.Length
      requires forall j | 0 <= j < TLB_ENTRIES :: tlbCache[j] == if j < k then Aged(t[j]) else t[j]
      modifies tlbCache
      ensures tlbCache[..] == Touch(t, k)
    {
      tlbCache[k] := tlbCache[k].(age := 0);
      for i := k + 1 to TLB_ENTRIES
        invariant forall j | 0 <= j < TLB_ENTRIES ::
                    tlbCache[j] == if j == k then t[j].(age := 0) else if j < i then Aged(t[j]) else t[j]
      {
        tlbCache[i] := Aged(tlbCache[i]);
      }
    }

    /** The scan of get_tlb_entry: ages entries up to a hit; without one, finds the victim. */
    method Scan(address: bv64) returns (hit: bool, k: nat)
      requires tlbCache.Length == TLB_ENTRIES
      modifies tlbCache
      ensures k < TLB_ENTRIES
      ensures var t, f := old(tlbCache[..]), Find(old(tlbCache[..]), PageOf(address), 0);
              if hit then f == k && tlbCache[..] == Touch(t, k)
              else f == |t| && k == Victim(t) && tlbCache[..] == Older(t)
    {
      hide PageOf, Oldest, Bump, Older, Touch, Find, Ages;
      ghost var t := tlbCache[..];
      var page := PageOf(address);
      var oldestAge := 0;
      var oldest := 0;
      for i := 0 to TLB_ENTRIES
        invariant forall j | 0 <= j < TLB_ENTRIES :: tlbCache[j] == if j < i then Aged(t[j]) else t[j]
        invariant forall j | 0 <= j < i :: t[j].virtBase != page
        invariant oldest < TLB_ENTRIES
        invariant if i == 0 then oldestAge == 0 && oldest == 0
                  else oldest == Oldest(Ages(t), i) && oldestAge == Bump(t[oldest].age)
      {
        if tlbCache[i].virtBase == page {
          Rejuvenate(i, t);
          FoundFirst(t, page, i);
          return true, i;
        }
        tlbCache[i] := Aged(tlbCache[i]);
        OldestNext(Ages(t), i);
        if tlbCache[i].age > oldestAge {
          oldestAge := tlbCache[i].age;
          oldest := i;
        }
      }
      FoundNone(t, page);
      AllOlder(tlbCache[..], t);
      return false, oldest;
    }

    /** get_tlb_entry: the slot that translates an address, after a walk if none does. */
    method GetTlbEntry(cpu: Cpu, address: bv64, acc: PageTable.Access) returns (found: bool, k: nat)
      requires cpu.Valid() && cpu.mmu == this
      modifies cpu`exc, cpu`excData, tlbCache
      ensures k < TLB_ENTRIES
      ensures var s := old(cpu.View());
              match LookupIn(s.cached, s.tlb, s.mem, s.root, address)
              case Missing => !found && cpu.View() == Raise(s.(tlb := FLUSHED), PageFault(acc), address)
              case Slot(t, j) => found && k == j && cpu.View() == s.(tlb := t)
    {
      hide PageOf, PhysBase, WalkOf, HasV, HasR, HasW, HasX, HasU, HasA, HasD, Find, Victim, Aged, Touch, Older;
      ghost var s := cpu.View();
      if useTlb {
        found, k := Scan(address);
        if !found {
          found := Refill(cpu, address, acc, k);
          OlderFilled(s.tlb, k, tlbCache[k]);
        }
      } else {
        k := 0;
        found := FetchPte(cpu, address, acc, 0);
      }
    }

    /** The miss path of get_tlb_entry, after the scan. */
    method Refill(cpu: Cpu, address: bv64, acc: PageTable.Access, k: nat) returns (ok: bool)
      requires cpu.Valid() && cpu.mmu == this && k < TLB_ENTRIES
      modifies cpu`exc, cpu`excData, tlbCache
      ensures var s := old(cpu.View());
              match WalkOf(s.mem, s.root, address)
              case Fault => !ok && cpu.View() == Raise(s.(tlb := FLUSHED), PageFault(acc), address)
              case Leaf(i, a, pte) =>
                ok && tlbCache[k] == FilledEntry(address, i, a, pte) && cpu.View() == s.(tlb := s.tlb[k := tlbCache[k]])
    {
      hide Cpu.View, PageOf, PhysBase, WalkOf, HasV, HasR, HasW, HasX, HasU, HasA, HasD;
      cpu.ViewFields();
      ghost var s := cpu.View();
      ok := FetchPte(cpu, address, acc, k);
      if ok {
        cpu.ViewFields();
        ghost var e := tlbCache[k];
        SetSlot(cpu, k, tlbCache[k].(virtBase := PageOf(address), age := 0));
        SetTwice(s.tlb, k, e, tlbCache[k]);
      }
    }

    /** The permission checks of translate. */
    method CheckEntry(e: Entry, priv: Priv, sum: bool, mxr: bool, acc: PageTable.Access) returns (ok: bool)
      ensures ok == EntryPermits(e, priv, sum, mxr, acc)
    {
      if (!e.read && e.write && !e.execute) || (!e.read && e.write && e.execute) {
        return false;
      }
      if e.user && priv != User && (!sum || acc == FetchAccess) {
        return false;
      }
      if !e.user && priv != Supervisor {
        return false;
      }
      match acc
      case LoadAccess => return e.read || (e.execute && mxr);
      case StoreAccess => return e.write;
      case FetchAccess => return e.execute;
    }

    /** The end of translate: set A and D in the entry and in memory where they are missing. */
    method MarkSlot(cpu: Cpu, k: nat, acc: PageTable.Access)
      requires cpu.Valid() && cpu.mmu == this && k < TLB_ENTRIES
      modifies cpu`exc, cpu`excData, cpu.ram.data, tlbCache
      ensures var s, e := old(cpu.View()), old(tlbCache[k]);
              && tlbCache[k].physBase == e.physBase
              && cpu.View() == if NeedsMark(e, acc) then WrittenBack(s, k, MarkEntry(e, acc)) else s
    {
      hide SetA, SetD, Memory.Store, Cpu.View, WrittenBack;
      cpu.ViewFields();
      if !tlbCache[k].accessed || (acc == StoreAccess && !tlbCache[k].dirty) {
        var e := tlbCache[k].(pte := SetA(tlbCache[k].pte), accessed := true);
        if acc == StoreAccess {
          e := e.(pte := SetD(e.pte), dirty := true);
        }
        assert e == MarkEntry(tlbCache[k], acc);
        WriteBack(cpu, k, e);
      }
    }

    method WriteBack(cpu: Cpu, k: nat, e: Entry)
      requires cpu.Valid() && cpu.mmu == this && k < TLB_ENTRIES
      modifies cpu`exc, cpu`excData, cpu.ram.data, tlbCache
      ensures cpu.View() == WrittenBack(old(cpu.View()), k, e) && tlbCache[k] == e
    {
      hide Memory.Store;
      ghost var s := cpu.View();
      SetSlot(cpu, k, e);
      cpu.BusStore(e.pteAddr, 8, e.pte);
      if !InRam(s.mem, e.pteAddr) {
        StoreOutside(s.mem, e.pteAddr, 8, e.pte);
      }
    }

    /** The part of translate that follows get_tlb_entry. */
    method FinishTranslation(cpu: Cpu, k: nat, cpuMode: Priv, address: bv64, acc: PageTable.Access) returns (pa: bv64)
      requires cpu.Valid() && cpu.mmu == this && k < TLB_ENTRIES
      requires cpuMode == EffectivePriv(CtxOf(cpu.View()), acc)
      modifies cpu`exc, cpu`excData, cpu.ram.data, tlbCache
      ensures (cpu.View(), pa) == Finished(old(cpu.View()), k, address, acc)
    {
      hide EntryPermits, Marked, Memory.Store, LoadCsr, ReadBits, Bits.ReadBit, WithOffset;
      var mxr := cpu.csr.ReadBit(MSTATUS, 19);
      var sum := cpu.csr.ReadBit(MSTATUS, 18);
      var e := tlbCache[k];
      var permitted := CheckEntry(e, cpuMode, sum, mxr, acc);
      if !permitted {
        SetCpuError(cpu, address, acc);
        return 0;
      }
      MarkSlot(cpu, k, acc);
      pa := WithOffset(e.physBase, address);
    }

    /** The privilege that translate checks against. */
    method EffectiveMode(cpu: Cpu, acc: PageTable.Access) returns (cpuMode: Priv)
      requires cpu.Valid() && cpu.mmu == this
      ensures cpu.View() == old(cpu.View()) && cpuMode == EffectivePriv(CtxOf(cpu.View()), acc)
    {
      hide LoadCsr, ReadBits, Bits.ReadBit, ModeOf;
      cpuMode := cpu.mode;
      var mprv := cpu.csr.ReadBit(MSTATUS, 17);
      if acc != FetchAccess && mprv {
        cpuMode := cpu.csr.ReadMppMode();
      }
    }

    /** translate: the physical address, or 0 after a page fault. */
    method Translate(cpu: Cpu, address: bv64, acc: PageTable.Access) returns (pa: bv64)
      requires cpu.Valid() && cpu.mmu == this
      modifies cpu`exc, cpu`excData, cpu.ram.data, tlbCache
      ensures (cpu.View(), pa) == Translated(old(cpu.View()), address, acc)
    {
      hide Cpu.View, Translated, CtxOf, EffectivePriv, LookupIn, Finished;
      ghost var s := cpu.View();
      cpu.ViewFields();
      if mode == BARE {
        PassedThrough(s, address, acc);
        return address;
      }
      var cpuMode := EffectiveMode(cpu, acc);
      if cpuMode == Machine {
        PassedThrough(s, address, acc);
        return address;
      }
      LookedUp(s, address, acc);
      var found, k := GetTlbEntry(cpu, address, acc);
      if !found {
        return 0;
      }
      SameContext(s, cpu.View());
      pa := FinishTranslation(cpu, k, cpuMode, address, acc);
    }

    /** Mmu::load. */
    method Load(cpu: Cpu, address: bv64, n: nat) returns (v: bv64)
      requires cpu.Valid() && cpu.mmu == this && n > 0
      modifies cpu`exc, cpu`excData, cpu.ram.data, tlbCache
      ensures (cpu.View(), v) == MmuLoad(old(cpu.View()), address, n)
    {
      hide Translated, Memory.Load, Cpu.View;
      var pa := Translate(cpu, address, LoadAccess);
      cpu.ViewFields();
      if cpu.exc != NoException {
        return 0;
      }
      v := cpu.BusLoad(ToNat(pa), n);
    }

    /** Mmu::fetch. */
    method Fetch(cpu: Cpu, address: bv64) returns (v: bv64)
      requires cpu.Valid() && cpu.mmu == this
      modifies cpu`exc, cpu`excData, cpu.ram.data, tlbCache
      ensures (cpu.View(), v) == MmuFetch(old(cpu.View()), address)
    {
      hide Translated, Memory.Load;
      var pa := Translate(cpu, address, FetchAccess);
      if cpu.exc != NoException {
        return 0;
      }
      v := cpu.BusLoad(ToNat(pa), 4);
      if cpu.exc == LoadAccessFault {
        cpu.exc := InstructionAccessFault;
      }
    }

    /** Mmu::store. */
    method Store(cpu: Cpu, address: bv64, n: nat, v: bv64)
      requires cpu.Valid() && cpu.mmu == this && n > 0
      modifies cpu`exc, cpu`excData, cpu.ram.data, tlbCache
      ensures cpu.View() == MmuStore(old(cpu.View()), address, n, v)
    {
      hide Translated, Memory.Store, Cpu.View;
      var pa := Translate(cpu, address, StoreAccess);
      cpu.ViewFields();
      if cpu.exc != NoException {
        return;
      }
      cpu.BusStore(ToNat(pa), n, v);
    }
  }
}
