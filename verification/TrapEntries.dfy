/** Where a trap goes and what it leaves in the trap registers, by the numbers of the registers, bits and
    causes of the Privileged Architecture (sections 3.1.7 to 3.1.16 and 4.1). */
module TrapEntries {
  import opened Bits
  import opened Memory
  import opened PageTable
  import opened CsrFile
  import opened Hart
  import opened Traps
  import opened MulDiv
  import opened Isa
  import opened Ordering
  import opened PageArithmetic
  import opened Numbers
  import opened IntegerOps
  import opened WalkNumbers
  import opened Machine
  import Interrupts
  import Nesting
  import opened TrapRuns

  /** Table 3.6: the cause numbers of exceptions. */
  function CauseNumber(e: Exception): nat
  {
    match e
    case InstructionAddressMisaligned => 0
    case InstructionAccessFault => 1
    case IllegalInstruction => 2
    case Breakpoint => 3
    case LoadAccessFault => 5
    case StoreAccessFault => 7
    case ECallUMode => 8
    case ECallSMode => 9
    case ECallMMode => 11
    case InstructionPageFault => 12
    case LoadPageFault => 13
    case StorePageFault => 15
    case NoException => 63
  }

  function TrapNumber(t: Trap): nat
  {
    match t
    case Interrupt(code) => ToNat(code)
    case Fault(e, _) => CauseNumber(e)
  }

  /** Traps from user and supervisor mode are delegated by the bit of their number in mideleg or medeleg,
      but for the machine timer, interrupt 7. */
  predicate GoesToSupervisor(mode: Priv, medeleg: nat, mideleg: nat, t: Trap)
  {
    && (mode == User || mode == Supervisor)
    && if t.Interrupt? then TrapNumber(t) != 7 && Bit(mideleg, TrapNumber(t)) else Bit(medeleg, TrapNumber(t))
  }

  /** The base without its low two bits; interrupts are vectored when the lowest is set. */
  function HandlerAddress(tvec: nat, t: Trap): nat
  {
    tvec - tvec % 4 + if t.Interrupt? && tvec % 2 == 1 then 4 * TrapNumber(t) else 0
  }

  /** Bit 63 of the cause tells interrupts. */
  function CauseRegister(t: Trap): nat
  {
    TrapNumber(t) + if t.Interrupt? then 0x8000_0000_0000_0000 else 0
  }

  /** The saved pc, the cause and the value in the three registers. */
  predicate Saved(r: Regs, epc: CsrFile.Address, cause: CsrFile.Address, tval: CsrFile.Address, pc: bv64, t: Trap)
  {
    && ToNat(r[epc]) == ToNat(pc) - ToNat(pc) % 2
    && ToNat(r[cause]) == CauseRegister(t)
    && r[tval] == match t { case Interrupt(_) => 0 case Fault(_, data) => data }
  }

  /** The state after a trap taken at `pc` in a mode, with these registers. */
  predicate Entered(mode: Priv, pc: bv64, r: Regs, t: Trap, u: State)
  {
    var old_ := StatusOf(r);
    if GoesToSupervisor(mode, ToNat(r[0x302]), ToNat(r[0x303]), t) then
      && u.mode == Supervisor && u.pc == Word(HandlerAddress(ToNat(r[0x105]), t))
      && Saved(u.csr, 0x141, 0x142, 0x143, pc, t)
      && StatusOf(u.csr) == old_.(spie := old_.sie, sie := false, spp := mode == Supervisor)
    else
      && u.mode == Machine && u.pc == Word(HandlerAddress(ToNat(r[0x305]), t))
      && Saved(u.csr, 0x341, 0x342, 0x343, pc, t)
      && (mode != Invalid ==> StatusOf(u.csr) == old_.(mpie := old_.mie, mie := false, mpp := mode))
  }

  // ---- The pieces --------------------------------------------------------------------------------------------

  lemma CodeMeans(e: Exception)
    ensures ToNat(ExceptionCode(e)) == CauseNumber(e)
  {}

  lemma ViewsPlain(r: Regs)
    ensures LoadCsr(r, MEDELEG) == r[0x302] && LoadCsr(r, MIDELEG) == r[0x303]
    ensures LoadCsr(r, STVEC) == r[0x105] && LoadCsr(r, MTVEC) == r[0x305]
  {}

  lemma DelegatedBit(v: bv64, i: BitIndex)
    ensures ReadBit(v, i) <==> Bit(ToNat(v), ToNat(i))
  {
    hide ToNat, ReadBit, Pow2;
    BitMeans(v, i);
  }

  lemma Seven(i: BitIndex)
    ensures i == 7 <==> ToNat(i) == 7
  {
    hide ToNat, Isa.Below;
    Indices();
    BelowMeans(i, 7);
  }

  lemma DelegationMeans(s: State, t: Trap)
    ensures ToSupervisor(s, t) <==> GoesToSupervisor(s.mode, ToNat(s.csr[0x302]), ToNat(s.csr[0x303]), t)
  {
    hide ToNat, ReadBit, Bit, LoadCsr, ExceptionCode, CauseNumber;
    ViewsPlain(s.csr);
    match t
    case Interrupt(code) =>
      DelegatedBit(s.csr[0x303], code);
      Seven(code);
    case Fault(e, _) =>
      DelegatedBit(s.csr[0x302], ExceptionCode(e));
      CodeMeans(e);
  }

  lemma BaseBits(v: bv64)
    ensures v & 0xffff_ffff_ffff_fffc == Sub(v, And(v, Ones(2))) && ToNat(2) == 2
  {}

  lemma BaseMeans(v: bv64)
    ensures ToNat(v & 0xffff_ffff_ffff_fffc) == ToNat(v) - ToNat(v) % 4
  {
    hide ToNat, Sub, And, Ones;
    BaseBits(v);
    LowBits(v, 2);
    assert Pow2(2) == 4;
    SubMeans(v, And(v, Ones(2)));
    Ranges(v);
    Division(ToNat(v), 4);
    ModUnique(ToNat(v) - ToNat(v) % 4, ToNat(v) - ToNat(v) % 4, 0, TWO64);
  }

  lemma QuadrupleBits(c: bv64)
    requires c < 64
    ensures c * 4 == Shl(c, 2) && ToNat(2) == 2
  {}

  lemma SmallIndex(c: BitIndex)
    ensures ToNat(c) < 64
  {}

  lemma QuadrupleMeans(c: BitIndex)
    ensures ToNat(c * 4) == 4 * ToNat(c)
  {
    hide ToNat, Shl;
    QuadrupleBits(c);
    SmallIndex(c);
    assert Pow2(2) == 4;
    ShlMultiplies(c, 2);
  }

  lemma PlusIs(a: bv64, b: bv64)
    ensures Plus(a, b) == Add(a, b)
  {}

  lemma VectorBits(tvec: bv64, t: Trap)
    ensures Vector(tvec, t) == Add(tvec & 0xffff_ffff_ffff_fffc, if t.Interrupt? && IsOdd(tvec) then t.code * 4 else 0)
  {
    hide Add, Plus, ReadBit, IsOdd;
    FirstBitIs(tvec);
    PlusIs(tvec & 0xffff_ffff_ffff_fffc, if t.Interrupt? && ReadBit(tvec, 0) then t.code * 4 else 0);
  }

  lemma VectorMeans(tvec: bv64, t: Trap)
    ensures Vector(tvec, t) == Word(HandlerAddress(ToNat(tvec), t))
  {
    hide ToNat, IsOdd, Add, Vector, Word;
    VectorBits(tvec, t);
    BaseMeans(tvec);
    OddNumber(tvec);
    Indices();
    var offset := if t.Interrupt? && IsOdd(tvec) then t.code * 4 else 0;
    if t.Interrupt? {
      QuadrupleMeans(t.code);
    }
    AddMeans(tvec & 0xffff_ffff_ffff_fffc, offset);
    IsWord(Vector(tvec, t), HandlerAddress(ToNat(tvec), t));
  }

  lemma CauseBits(c: BitIndex)
    ensures 0x8000_0000_0000_0000 | c == Or(0x8000_0000_0000_0000, c) && And(0x8000_0000_0000_0000, c) == 0
    ensures ToNat(0x8000_0000_0000_0000) == 0x8000_0000_0000_0000
  {}

  lemma CauseMeans(t: Trap)
    ensures ToNat(CauseOf(t)) == CauseRegister(t)
  {
    hide ToNat, Or, And, ExceptionCode, CauseNumber;
    match t
    case Interrupt(c) =>
      CauseBits(c);
      OrAdds(0x8000_0000_0000_0000, c);
    case Fault(e, _) => CodeMeans(e);
  }

  lemma EvenMeans(pc: bv64)
    ensures ToNat(Even(pc)) == ToNat(pc) - ToNat(pc) % 2
  {
    hide ToNat, Even, Sub, And, Ones;
    EvenIs(pc);
    LowBits(pc, 1);
    assert Pow2(1) == 2;
    SubMeans(pc, And(pc, Ones(1)));
    Ranges(pc);
    Division(ToNat(pc), 2);
    ModUnique(ToNat(pc) - ToNat(pc) % 2, ToNat(pc) - ToNat(pc) % 2, 0, TWO64);
  }

  lemma ModeCodes()
    ensures ModeCode(User) == 0 && ModeCode(Supervisor) == 1
  {}

  // ---- Trap entry ----------------------------------------------------------------------------------------------

  lemma SupervisorEntered(s: State, t: Trap)
    requires ToSupervisor(s, t)
    ensures Entered(s.mode, s.pc, s.csr, t, Enter(s, t))
  {
    hide ToNat, ToSupervisor, GoesToSupervisor, HandlerAddress, CauseRegister, SupervisorEntry, MachineEntry, Vector,
      Even, CauseOf, StatusBits, LoadCsr, Word, ModeCode;
    DelegationMeans(s, t);
    ViewsPlain(s.csr);
    VectorMeans(s.csr[0x105], t);
    CauseMeans(t);
    EvenMeans(s.pc);
    SupervisorEntryFields(s.csr, s.mode, s.pc, t);
    ModeCodes();
    SupervisorOnly(s, t);
  }

  lemma SupervisorOnly(s: State, t: Trap)
    requires ToSupervisor(s, t)
    ensures s.mode == User || s.mode == Supervisor
  {
    hide Delegated;
  }

  lemma MachineEntered(s: State, t: Trap)
    requires !ToSupervisor(s, t)
    ensures Entered(s.mode, s.pc, s.csr, t, Enter(s, t))
  {
    hide ToNat, ToSupervisor, GoesToSupervisor, HandlerAddress, CauseRegister, SupervisorEntry, MachineEntry, Vector,
      Even, CauseOf, StatusBits, LoadCsr, Word, ModeCode;
    DelegationMeans(s, t);
    ViewsPlain(s.csr);
    VectorMeans(s.csr[0x305], t);
    CauseMeans(t);
    EvenMeans(s.pc);
    EntryRegs(s.csr, s.mode, s.pc, t);
    if s.mode != Invalid {
      MachineEntryFields(s.csr, s.mode, s.pc, t);
    }
  }

  lemma TakingKeeps(s: State, h: Half)
    requires s.exc == NoException && TrapIn(s, h).Some?
    ensures SameTrapRegs(s.csr, Taking(s, h).csr)
  {
    hide Interrupts.Poll, FetchAndExecute, SameTrapRegs;
    match h
    case Polls(irq) => PollRegs(s, irq);
    case Executes => RaisingFetch(s);
  }

  lemma EnteredAlike(mode: Priv, pc: bv64, r: Regs, q: Regs, t: Trap, u: State, v: State)
    requires Entered(mode, pc, r, t, u) && SameTrapRegs(q, r) && Agree(v, u)
    ensures Entered(mode, pc, q, t, v)
  {
    hide ToNat, GoesToSupervisor, HandlerAddress, CauseRegister, StatusBits, Word;
  }

  /** A half of a step that takes a trap, an interrupt at the poll or an exception of the instruction,
      ends at the handler that the registers before it name, in the mode they delegate it to, with the
      interrupted pc, the cause and its value in the registers of that mode. */
  lemma TrapEnters(s: State, h: Half)
    requires s.exc == NoException && TrapIn(s, h).Some?
    ensures Next(s, h).Some?
    ensures Entered(s.mode, s.pc, s.csr, TrapIn(s, h).value, Next(s, h).value) && Next(s, h).value.exc == NoException
  {
    hide TrapIn, Taking, Nesting.Keeps, Next, Enter, Entered, ToSupervisor, SameTrapRegs, Agree;
    HalfEnters(s, h, Nesting.Live(false, false, false, false));
    TakingKeeps(s, h);
    var b, t := Taking(s, h), TrapIn(s, h).value;
    if ToSupervisor(b, t) {
      SupervisorEntered(b, t);
    } else {
      MachineEntered(b, t);
    }
    EnteredAlike(b.mode, b.pc, b.csr, s.csr, t, Enter(b, t), Next(s, h).value);
  }

  // ---- Which interrupt -----------------------------------------------------------------------------------------

  /** Enabled in mie and pending in mip; a raised line makes the supervisor external interrupt, 9, pending. */
  predicate Waits(mie: bv64, mip: bv64, irq: bool, k: BitIndex)
  {
    ReadBit(mie, k) && (ReadBit(mip, k) || (irq && k == 9))
  }

  /** Machine external, software, timer, then supervisor external, software, timer. */
  function Chosen(mie: bv64, mip: bv64, irq: bool): Option<BitIndex>
  {
    if Waits(mie, mip, irq, 11) then Some(11)
    else if Waits(mie, mip, irq, 3) then Some(3)
    else if Waits(mie, mip, irq, 7) then Some(7)
    else if Waits(mie, mip, irq, 9) then Some(9)
    else if Waits(mie, mip, irq, 1) then Some(1)
    else if Waits(mie, mip, irq, 5) then Some(5)
    else None
  }

  /** Unless the hart sleeps, bit 3 of mstatus shuts interrupts out in machine mode and bit 1 in supervisor
      mode. */
  predicate ShutOut(s: State)
  {
    && !s.sleep
    && ((s.mode == Machine && !ReadBit(s.csr[0x300], 3)) || (s.mode == Supervisor && !ReadBit(s.csr[0x300], 1)))
  }

  lemma GatedMeans(s: State)
    ensures Interrupts.Gated(s) <==> ShutOut(s)
  {
    hide ReadBit, ReadBits;
  }

  /** The pending bits as the poll sees them. */
  lemma RaisedLine(r: Regs, k: BitIndex)
    ensures var q := WriteCsrBit(r, MIP, 9, true);
            q == r[0x344 := q[0x344]] && ReadBit(q[0x344], k) == (ReadBit(r[0x344], k) || k == 9)
  {
    hide ReadBit, WriteBit;
    BitWritten(r[0x344], 9, true);
    if k != 9 {
      BitKept(r[0x344], 9, true, k);
    }
  }

  /** The registers that the poll decides on. */
  function Polled(r: Regs, irq: bool): Regs
  {
    if irq then WriteCsrBit(r, MIP, 9, true) else r
  }

  lemma PolledMeans(r: Regs, irq: bool, k: BitIndex)
    ensures var q := Polled(r, irq);
            && q == r[0x344 := q[0x344]] && ReadBit(q[0x344], k) == (ReadBit(r[0x344], k) || (irq && k == 9))
            && Interrupts.IsPending(q, k) == Waits(r[0x304], r[0x344], irq, k)
  {
    hide ReadBit, WriteCsrBit;
    RaisedLine(r, k);
  }

  lemma FirstMeans(r: Regs, irq: bool)
    ensures Interrupts.FirstPending(Polled(r, irq), Interrupts.ORDER) == Chosen(r[0x304], r[0x344], irq)
  {
    hide Interrupts.IsPending, Waits, Polled, ReadBit;
    var q := Polled(r, irq);
    PolledMeans(r, irq, 11);
    PolledMeans(r, irq, 3);
    PolledMeans(r, irq, 7);
    PolledMeans(r, irq, 9);
    PolledMeans(r, irq, 1);
    PolledMeans(r, irq, 5);
    PriorityList(q);
  }

  lemma PriorityList(q: Regs)
    ensures Interrupts.FirstPending(q, Interrupts.ORDER) ==
            if Interrupts.IsPending(q, 11) then Some(11)
            else if Interrupts.IsPending(q, 3) then Some(3)
            else if Interrupts.IsPending(q, 7) then Some(7)
            else if Interrupts.IsPending(q, 9) then Some(9)
            else if Interrupts.IsPending(q, 1) then Some(1)
            else if Interrupts.IsPending(q, 5) then Some(5)
            else None
  {
    hide Interrupts.IsPending;
    FirstOf(q, 5, []);
    FirstOf(q, 1, [5]);
    FirstOf(q, 9, [1, 5]);
    FirstOf(q, 7, [9, 1, 5]);
    FirstOf(q, 3, [7, 9, 1, 5]);
    FirstOf(q, 11, [3, 7, 9, 1, 5]);
    assert Interrupts.ORDER == [11] + [3, 7, 9, 1, 5] && [3, 7, 9, 1, 5] == [3] + [7, 9, 1, 5];
    assert [7, 9, 1, 5] == [7] + [9, 1, 5] && [9, 1, 5] == [9] + [1, 5] && [1, 5] == [1] + [5] && [5] == [5] + [];
  }

  lemma FirstOf(q: Regs, k: BitIndex, rest: seq<BitIndex>)
    ensures Interrupts.FirstPending(q, [k] + rest) ==
            if Interrupts.IsPending(q, k) then Some(k) else Interrupts.FirstPending(q, rest)
  {
    hide Interrupts.IsPending;
    assert ([k] + rest)[1..] == rest;
  }

  /** What a poll delivers, and what is pending afterwards. */
  lemma PollMeans(s: State, irq: bool, j: BitIndex)
    ensures var (t, c) := Interrupts.Poll(s, irq);
            if ShutOut(s) then t == s && c == None
            else
              && c == Chosen(s.csr[0x304], s.csr[0x344], irq)
              && t == s.(csr := s.csr[0x344 := t.csr[0x344]])
              && ReadBit(t.csr[0x344], j) == ((ReadBit(s.csr[0x344], j) || (irq && j == 9)) && c != Some(j))
  {
    hide ReadBit, ShutOut, Chosen, Polled, Interrupts.Gated, Interrupts.FirstPending, Interrupts.Taken,
      Interrupts.IsPending, WriteBit;
    GatedMeans(s);
    FirstMeans(s.csr, irq);
    PolledMeans(s.csr, irq, j);
    PollIs(s, irq);
    var c := Interrupts.FirstPending(Polled(s.csr, irq), Interrupts.ORDER);
    if c.Some? {
      TakenBit(Polled(s.csr, irq), c.value, j);
    }
  }

  lemma PollIs(s: State, irq: bool)
    ensures Interrupts.Poll(s, irq) ==
            if Interrupts.Gated(s) then (s, None)
            else match Interrupts.FirstPending(Polled(s.csr, irq), Interrupts.ORDER)
              case None => (s.(csr := Polled(s.csr, irq)), None)
              case Some(c) => (s.(csr := Interrupts.Taken(Polled(s.csr, irq), c)), Some(c))
  {
    hide Interrupts.Gated, Interrupts.FirstPending, Interrupts.Taken, WriteCsrBit, Interrupts.ORDER;
  }

  lemma TakenBit(r: Regs, c: BitIndex, j: BitIndex)
    ensures Interrupts.Taken(r, c) == r[0x344 := Interrupts.Taken(r, c)[0x344]]
    ensures ReadBit(Interrupts.Taken(r, c)[0x344], j) == (ReadBit(r[0x344], j) && j != c)
  {
    hide ReadBit, WriteBit;
    Interrupts.TakenClears(r, c, c);
    BitWritten(r[0x344], c, false);
    if j != c {
      BitKept(r[0x344], c, false, j);
    }
  }

  lemma CycleCounted(s: State)
    ensures var t := CountCycle(s);
            t == s.(csr := s.csr[0xc00 := t.csr[0xc00]]) && t.csr[0xc00] == Word(ToNat(s.csr[0xc00]) + 1)
  {
    hide ToNat, Word, Add;
    AddOne(s.csr[0xc00]);
    IsWord(Add(s.csr[0xc00], 1), ToNat(s.csr[0xc00]) + 1);
  }

  /** The first half of a step takes the interrupt that the registers before it choose. */
  lemma PollTakes(s: State, irq: bool)
    ensures TrapIn(s, Polls(irq)) ==
            if ShutOut(s) then None
            else match Chosen(s.csr[0x304], s.csr[0x344], irq) case None => None case Some(c) => Some(Interrupt(c))
  {
    hide ToNat, Word, ReadBit, ShutOut, Chosen, Interrupts.Poll, CountCycle;
    CycleCounted(s);
    SameGate(s, CountCycle(s));
    PollMeans(CountCycle(s), irq, 0);
  }

  /** It counts the cycle and clears register 0, whether it takes an interrupt or not. */
  lemma PollCounts(s: State, irq: bool)
    ensures Prepared(s, irq).csr[0xc00] == Word(ToNat(s.csr[0xc00]) + 1)
    ensures Prepared(s, irq).regs == s.regs[0 := 0]
  {
    hide ToNat, Word, ReadBit, ShutOut, Chosen, Interrupts.Poll, CountCycle, Enter;
    CycleCounted(s);
    PollMeans(CountCycle(s), irq, 0);
    var (u, c) := Interrupts.Poll(CountCycle(s), irq);
    if c.Some? {
      EntryKeepsCycle(u, Interrupt(c.value));
    }
  }

  lemma SameGate(s: State, t: State)
    requires t == s.(csr := t.csr) && t.csr[0x300] == s.csr[0x300]
    ensures ShutOut(t) == ShutOut(s)
  {
    hide ReadBit;
  }

  lemma EntryKeepsCycle(s: State, t: Trap)
    ensures Enter(s, t).csr[0xc00] == s.csr[0xc00] && Enter(s, t).regs == s.regs
  {
    hide SupervisorEntry, MachineEntry, Delegated, Vector, Even, CauseOf, ValueOf;
    EntryRegs(s.csr, s.mode, s.pc, t);
  }
}
