/** Nested traps in runs of the machine: the handlers are runs of steps, and the code they interrupt
    resumes as if nothing had happened. */
module TrapRuns {
  import opened Bits
  import opened PageTable
  import opened CsrFile
  import opened Hart
  import opened Traps
  import opened Interrupts
  import opened Nesting
  import opened AccessPath
  import opened Decoder
  import opened Isa
  import opened Compressed
  import opened Atomics
  import opened System
  import opened Machine

  /** The halves of a step: the poll, and the fetch and execution. An interrupt is taken between
      them, so its handler starts with an execution. */
  datatype Half = Polls(irq: bool) | Executes

  function Next(s: State, h: Half): Option<State>
  {
    match h
    case Polls(irq) => Some(Prepared(s, irq))
    case Executes => Proceed(s)
  }

  function RunHalves(s: State, hs: seq<Half>): Option<State>
    decreases |hs|
  {
    if hs == [] then Some(s)
    else match Next(s, hs[0])
      case None => None
      case Some(t) => RunHalves(t, hs[1..])
  }

  function Alternating(irqs: seq<bool>): seq<Half>
  {
    if irqs == [] then [] else [Polls(irqs[0]), Executes] + Alternating(irqs[1..])
  }

  /** A run of the machine is a run of alternating halves. */
  lemma {:induction false} StepsAreHalves(s: State, irqs: seq<bool>)
    ensures Steps(s, irqs) == RunHalves(s, Alternating(irqs))
    decreases |irqs|
  {
    hide Proceed, Prepared;
    if irqs != [] {
      var p, rest := Prepared(s, irqs[0]), Alternating(irqs[1..]);
      var hs := Alternating(irqs);
      assert hs[0] == Polls(irqs[0]) && hs[1..][0] == Executes && hs[1..][1..] == rest;
      assert RunHalves(s, hs) == RunHalves(p, hs[1..]);
      if Proceed(p).Some? {
        StepsAreHalves(Proceed(p).value, irqs[1..]);
      }
    }
  }

  // ---- What a half does to the trap registers -------------------------------------------------------

  /** The trap that a half takes. */
  function TrapIn(s: State, h: Half): Option<Trap>
  {
    match h
    case Polls(irq) =>
      match Poll(CountCycle(s), irq).1 {
        case None => None
        case Some(c) => Some(Trap.Interrupt(c))
      }
    case Executes =>
      match FetchAndExecute(s) {
        case None => None
        case Some((v, _)) => if v.exc == NoException then None else Some(Trap.Fault(v.exc, v.excData))
      }
  }

  /** The state in which it is taken. */
  function Taking(s: State, h: Half): State
  {
    match h
    case Polls(irq) => Poll(CountCycle(s), irq).0
    case Executes => if FetchAndExecute(s).Some? then FetchAndExecute(s).value.0 else s
  }

  /** The states agree on everything that trap entry and return look at. */
  predicate Agree(a: State, b: State)
  {
    a.mode == b.mode && a.pc == b.pc && a.csr == b.csr
  }

  /** The registers that hold the context of a trap, those that route it, and mstatus. */
  predicate SameTrapRegs(r: Regs, q: Regs)
  {
    && r[MSTATUS] == q[MSTATUS]
    && r[MEDELEG] == q[MEDELEG] && r[MIDELEG] == q[MIDELEG] && r[STVEC] == q[STVEC] && r[MTVEC] == q[MTVEC]
    && r[SEPC] == q[SEPC] && r[SCAUSE] == q[SCAUSE] && r[STVAL] == q[STVAL]
    && r[MEPC] == q[MEPC] && r[MCAUSE] == q[MCAUSE] && r[MTVAL] == q[MTVAL]
  }

  lemma SameTrapRegsKeep(a: State, b: State, live: Live)
    requires a.mode == b.mode && SameTrapRegs(a.csr, b.csr)
    ensures Keeps(a, b, live)
  {
    hide StatusBits;
  }

  lemma KeepsAgree(a: State, b: State, c: State, live: Live)
    requires Agree(b, c)
    ensures Keeps(a, b, live) == Keeps(a, c, live) && Keeps(b, a, live) == Keeps(c, a, live)
  {
    hide StatusBits;
  }

  lemma PollMip(s: State, irq: bool)
    ensures var t := Poll(s, irq).0; t == s.(csr := s.csr[MIP := t.csr[MIP]])
  {
    hide Gated, FirstPending, Bits.WriteBit, ORDER, LoadCsr, Merge;
  }

  lemma PollRegs(s: State, irq: bool)
    ensures var t := Poll(CountCycle(s), irq).0;
            t == s.(csr := t.csr) && SameTrapRegs(s.csr, t.csr)
  {
    hide Poll, Add, LoadCsr;
    PollMip(CountCycle(s), irq);
  }

  lemma QuietPoll(s: State, irq: bool, live: Live)
    requires TrapIn(s, Polls(irq)).None?
    ensures var t := Prepared(s, irq); Keeps(s, t, live) && t.exc == s.exc
  {
    hide Poll, Keeps, SameTrapRegs, Enter;
    PollRegs(s, irq);
    SameTrapRegsKeep(s, Prepared(s, irq), live);
  }

  lemma EnteringPoll(s: State, irq: bool, live: Live)
    requires TrapIn(s, Polls(irq)).Some?
    ensures var b, t := Taking(s, Polls(irq)), TrapIn(s, Polls(irq)).value;
            && Keeps(s, b, live) && b.pc == s.pc && b.mode == s.mode
            && Agree(Prepared(s, irq), Enter(b, t)) && Prepared(s, irq).exc == s.exc
  {
    hide Poll, Keeps, SameTrapRegs, Enter;
    PollRegs(s, irq);
    var b := Poll(CountCycle(s), irq).0;
    SameTrapRegsKeep(s, b, live);
    EnterFrame(b, TrapIn(s, Polls(irq)).value);
  }

  /** The word that a half executes, if it executes one. */
  function Executed(s: State, h: Half): Option<bv64>
  {
    var (u, w) := MmuFetch(s, s.pc);
    if h.Polls? || s.sleep || u.exc != NoException || w == 0 then None else Some(w)
  }

  predicate IsSystem(w: bv64)
  {
    InsnSize(w) != 2 && Opcode(w) == SYSTEM
  }

  lemma BaseKeepsControl(s: State, w: bv64)
    requires !IsSystem(w) && Execute(s, w).Some?
    ensures Execute(s, w).value.mode == s.mode && Execute(s, w).value.csr == s.csr
  {
    hide Effect16, Effect32, Apply, Atomic, SystemOp, InsnSize, Opcode;
    if InsnSize(w) == 2 {
      ApplyFrame(s, Effect16(w, s.regs, s.pc).value);
    } else if Opcode(w) == ATOMIC {
      AtomicFrame(s, w);
    } else {
      ApplyFrame(s, Effect32(w, s.regs, s.pc, 4).value);
    }
  }

  /** Code other than system instructions, traps and their returns leaves every trap context alone. */
  lemma QuietExecution(s: State, live: Live)
    requires s.exc == NoException && Proceed(s).Some? && TrapIn(s, Executes).None?
    requires Executed(s, Executes).Some? ==> !IsSystem(Executed(s, Executes).value)
    ensures Keeps(s, Proceed(s).value, live) && Proceed(s).value.exc == NoException
  {
    hide MmuFetch, Execute, IsSystem, Keeps, Trapped, Add, InsnSize, SameTrapRegs;
    FetchFrame(s, s.pc);
    var (u, w) := MmuFetch(s, s.pc);
    if !s.sleep && u.exc == NoException && w != 0 {
      BaseKeepsControl(u, w);
    }
    ReflexiveRegs(s.csr);
    SameTrapRegsKeep(s, Proceed(s).value, live);
  }

  lemma ReflexiveRegs(r: Regs)
    ensures SameTrapRegs(r, r)
  {}

  lemma RaisingSret(s: State, w: bv64)
    requires s.exc == NoException
    ensures Sret(s, w).exc != NoException ==> Sret(s, w).mode == s.mode && Sret(s, w).csr == s.csr
  {
    hide CsrBit, LoadCsr, SretRegs, Back;
  }

  lemma RaisingMret(s: State, w: bv64)
    requires s.exc == NoException
    ensures Mret(s, w).exc != NoException ==> Mret(s, w).mode == s.mode && Mret(s, w).csr == s.csr
  {
    hide LoadCsr, MretRegs, MppMode, Back;
  }

  lemma FenceControl(s: State, w: bv64)
    ensures FenceVma(s, w).mode == s.mode && FenceVma(s, w).csr == s.csr
    ensures ECall(s, w).mode == s.mode && ECall(s, w).csr == s.csr
  {
    hide CsrBit, LoadCsr, RootOf;
  }

  lemma RaisedControl(s: State, e: Exception, data: bv64)
    ensures Raise(s, e, data).mode == s.mode && Raise(s, e, data).csr == s.csr
  {}

  lemma RaisingEnvironment(s: State, w: bv64)
    requires s.exc == NoException && Environment(s, w).exc != NoException
    ensures Environment(s, w).mode == s.mode && Environment(s, w).csr == s.csr
  {
    hide Sret, Mret, FenceVma, ECall, Funct7, Rs2, Raise;
    RaisingSret(s, w);
    RaisingMret(s, w);
    FenceControl(s, w);
    RaisedControl(s, Breakpoint, 0);
    RaisedControl(s, IllegalInstruction, w);
  }

  lemma SatpControl(s: State, w: bv64, rhs: bv64, op: CsrOp)
    ensures var t := SatpHandler(s, w, rhs, op); t.mode == s.mode && SameTrapRegs(s.csr, t.csr)
  {
    hide CsrBit, CsrResult, RootOf, Index, Rd;
  }

  lemma RaisingCsr(s: State, w: bv64, a: Address, rhs: bv64, op: CsrOp)
    requires s.exc == NoException && CsrAccess(s, w, a, rhs, op).Some?
    requires CsrAccess(s, w, a, rhs, op).value.exc != NoException
    ensures var t := CsrAccess(s, w, a, rhs, op).value; t.mode == s.mode && SameTrapRegs(s.csr, t.csr)
  {
    hide LoadCsr, CsrResult, DefaultHandler, SatpHandler, IsFloatCsr, IsReadOnly, Index, Rd, SameTrapRegs;
    SatpControl(s, w, rhs, op);
    DefaultFrame(s, Rd(w), a, rhs, op);
    ReflexiveRegs(s.csr);
  }

  /** A system instruction that raises has changed neither the mode nor a trap register. */
  lemma RaisingSystem(s: State, w: bv64)
    requires s.exc == NoException && SystemOp(s, w).Some? && SystemOp(s, w).value.exc != NoException
    ensures var t := SystemOp(s, w).value; t.mode == s.mode && SameTrapRegs(s.csr, t.csr)
  {
    hide CsrAccess, Environment, SameTrapRegs, Funct3, Rs1, Reg, CsrAddress, Raise;
    var a, r := CsrAddress(w), Reg(s.regs, Rs1(w));
    ReflexiveRegs(s.csr);
    match Funct3(w)
    case 0 => RaisingEnvironment(s, w);
    case 1 => RaisingCsr(s, w, a, r, ReadWrite);
    case 2 => RaisingCsr(s, w, a, r, ReadSet);
    case 3 => RaisingCsr(s, w, a, r, ReadClear);
    case 5 => RaisingCsr(s, w, a, Rs1(w), ReadWrite);
    case 6 => RaisingCsr(s, w, a, Rs1(w), ReadSet);
    case 7 => RaisingCsr(s, w, a, Rs1(w), ReadClear);
    case _ => RaisedControl(s, IllegalInstruction, w);
  }

  lemma RaisingExecute(s: State, w: bv64)
    requires s.exc == NoException && Execute(s, w).Some? && Execute(s, w).value.exc != NoException
    ensures var t := Execute(s, w).value; t.mode == s.mode && SameTrapRegs(s.csr, t.csr)
  {
    hide Effect16, Effect32, Apply, Atomic, SystemOp, InsnSize, Opcode, SameTrapRegs;
    ReflexiveRegs(s.csr);
    if IsSystem(w) {
      RaisingSystem(s, w);
    } else {
      BaseKeepsControl(s, w);
    }
  }

  lemma RaisingFetch(s: State)
    requires s.exc == NoException && FetchAndExecute(s).Some? && FetchAndExecute(s).value.0.exc != NoException
    ensures var v := FetchAndExecute(s).value.0; v.pc == s.pc && v.mode == s.mode && SameTrapRegs(s.csr, v.csr)
  {
    hide MmuFetch, Execute, SameTrapRegs, InsnSize, Sound, LoadCsr;
    ExecutionDisciplined(s);
    FetchFrame(s, s.pc);
    ReflexiveRegs(s.csr);
    var (u, w) := MmuFetch(s, s.pc);
    if !s.sleep && u.exc == NoException && w != 0 {
      RaisingExecute(u, w);
    }
  }

  /** An exception is taken at the pc of its instruction, with the trap registers untouched. */
  lemma EnteringExecution(s: State, live: Live)
    requires s.exc == NoException && TrapIn(s, Executes).Some?
    ensures var b, t := Taking(s, Executes), TrapIn(s, Executes).value;
            && Keeps(s, b, live) && b.pc == s.pc && b.mode == s.mode
            && Proceed(s).Some? && Agree(Proceed(s).value, Enter(b, t)) && Proceed(s).value.exc == NoException
  {
    hide FetchAndExecute, Keeps, SameTrapRegs, Enter;
    RaisingFetch(s);
    SameTrapRegsKeep(s, FetchAndExecute(s).value.0, live);
  }

  /** Taking a trap, by either half of a step, never lowers the privilege. */
  lemma EntryNeverLowers(s: State, h: Half)
    requires s.exc == NoException && s.mode != Invalid && TrapIn(s, h).Some?
    ensures Next(s, h).Some? && Rank(Next(s, h).value.mode) >= Rank(s.mode)
  {
    hide TrapIn, Taking, Keeps, Proceed, Prepared, Enter;
    HalfEnters(s, h, Live(false, false, false, false));
    EntersAbove(Taking(s, h), TrapIn(s, h).value);
  }

  lemma EntersAbove(s: State, t: Trap)
    requires s.mode != Invalid
    ensures Rank(Enter(s, t).mode) >= Rank(s.mode)
  {
    hide Enter, Delegated;
    EnterMode(s, t);
  }

  // ---- Returns ---------------------------------------------------------------------------------------

  /** The word is the return instruction of the mode: mret in machine mode, otherwise sret. */
  predicate IsReturn(w: bv64, mode: Priv)
  {
    && IsSystem(w) && Funct3(w) == 0 && Rs2(w) == 2
    && Funct7(w) == if mode == Machine then 0x18 else 0x08
  }

  /** The step executes the return instruction of its mode, without an exception. */
  predicate Returns(s: State)
  {
    && TrapIn(s, Executes).None? && Executed(s, Executes).Some?
    && IsReturn(Executed(s, Executes).value, s.mode)
  }

  lemma ReturnWord(s: State, w: bv64)
    requires IsReturn(w, s.mode)
    ensures Execute(s, w) == Some(if s.mode == Machine then Mret(s, w) else Sret(s, w)) && InsnSize(w) == 4
  {
    hide Mret, Sret, Opcode, COpcode, Funct3, Funct7, Rs2;
  }

  /** Without an exception the instruction word does not matter. */
  lemma SretAlike(s: State, u: State, w: bv64)
    requires u.exc == NoException && Agree(s, u) && Sret(u, w).exc == NoException
    ensures Agree(Sret(u, w), Sret(s, 0))
  {
    hide CsrBit, LoadCsr, SretRegs, Back;
  }

  lemma MretAlike(s: State, u: State, w: bv64)
    requires u.exc == NoException && Agree(s, u) && Mret(u, w).exc == NoException
    ensures Agree(Mret(u, w), Mret(s, 0))
  {
    hide LoadCsr, MretRegs, MppMode, Back;
  }

  lemma AdvancedAlike(s: State, u: State)
    requires Agree(u, s)
    ensures Agree(u.(pc := Add(u.pc, 4)), s.(pc := s.pc + 4))
  {}

  lemma ReturnAlike(s: State, u: State, w: bv64)
    requires u.exc == NoException && Agree(s, u)
    requires (if u.mode == Machine then Mret(u, w) else Sret(u, w)).exc == NoException
    ensures var r := if u.mode == Machine then Mret(u, w) else Sret(u, w);
            Agree(r.(pc := Add(r.pc, 4)), Return(s))
  {
    hide Sret, Mret, Add;
    if u.mode == Machine {
      MretAlike(s, u, w);
      AdvancedAlike(Mret(s, 0), Mret(u, w));
    } else {
      SretAlike(s, u, w);
      AdvancedAlike(Sret(s, 0), Sret(u, w));
    }
  }

  /** The step that executes a return ends where the return goes: the length of the step makes up
      for the 4 that the return stays short of. */
  lemma Returning(s: State)
    requires s.exc == NoException && Returns(s)
    ensures Proceed(s).Some? && Agree(Proceed(s).value, Return(s)) && Proceed(s).value.exc == NoException
  {
    hide MmuFetch, Execute, Mret, Sret, Return, IsReturn, InsnSize, Add, Agree;
    FetchFrame(s, s.pc);
    var (u, w) := MmuFetch(s, s.pc);
    ReturnWord(u, w);
    assert Agree(s, u) by { FetchedAgree(s); }
    ReturnAlike(s, u, w);
  }

  lemma FetchedAgree(s: State)
    ensures Agree(s, MmuFetch(s, s.pc).0)
  {
    hide MmuFetch;
    FetchFrame(s, s.pc);
  }

  // ---- Nested runs ------------------------------------------------------------------------------------

  /** A run between two points of the same code, by halves: halves that take no trap, traps with the
      run of their handler, which a return instruction ends, and stretches at whose end a handler has
      its own trap registers and the enable bits back. */
  datatype Code =
    | Stop
    | Go(h: Half, rest: Code)
    | Handle(h: Half, handler: Code, rest: Code)
    | Saved(body: Code, rest: Code)

  function Halves(code: Code): seq<Half>
  {
    match code
    case Stop => []
    case Go(h, rest) => [h] + Halves(rest)
    case Handle(h, handler, rest) => [h] + Halves(handler) + [Executes] + Halves(rest)
    case Saved(body, rest) => Halves(body) + Halves(rest)
  }

  function Reached(s: State, code: Code): Option<State>
  {
    RunHalves(s, Halves(code))
  }

  /** Ordinary code leaves live contexts alone, which is a condition on its system instructions only;
      a trap is taken to a level only while that level's registers are free, from a mode that is not
      the reserved one, and to supervisor mode while TSR is clear, as its sret would fault otherwise.
      While it has its registers saved a handler may enable its interrupts and take traps to its own
      level; at the end the registers and the enable bits are back. */
  ghost predicate WellNested(s: State, code: Code, live: Live)
    decreases code
  {
    match code
    case Stop => true
    case Go(h, rest) =>
      && TrapIn(s, h).None? && Next(s, h).Some?
      && (Executed(s, h).Some? && IsSystem(Executed(s, h).value) ==> Keeps(s, Next(s, h).value, live))
      && WellNested(Next(s, h).value, rest, live)
    case Handle(h, handler, rest) =>
      && TrapIn(s, h).Some? && Next(s, h).Some? && s.mode != Invalid
      && var b, t := Taking(s, h), TrapIn(s, h).value;
         && (if ToSupervisor(b, t) then !live.s && !StatusOf(b.csr).tsr else !live.m)
         && WellNested(Next(s, h).value, handler, LiveInHandler(b, t, live))
         && var e := Reached(Next(s, h).value, handler);
            && e.Some? && Returns(e.value) && Proceed(e.value).Some?
            && WellNested(Proceed(e.value).value, rest, live)
    case Saved(body, rest) =>
      && (s.mode == Supervisor || s.mode == Machine)
      && WellNested(s, body, LiveWhileSaved(s, live))
      && var e := Reached(s, body);
         && e.Some?
         && (if s.mode == Machine then SameMachine(s, e.value) else SameSupervisor(s, e.value))
         && SameEnables(s, e.value)
         && WellNested(e.value, rest, live)
  }

  lemma {:induction false} RunAppend(s: State, a: seq<Half>, b: seq<Half>)
    ensures RunHalves(s, a + b) == match RunHalves(s, a) case None => None case Some(t) => RunHalves(t, b)
    decreases |a|
  {
    hide Next;
    if a == [] {
      assert a + b == b;
    } else {
      assert (a + b)[0] == a[0] && (a + b)[1..] == a[1..] + b;
      if Next(s, a[0]).Some? {
        RunAppend(Next(s, a[0]).value, a[1..], b);
      }
    }
  }

  lemma RunOne(s: State, h: Half)
    ensures RunHalves(s, [h]) == Next(s, h)
  {
    hide Next;
    assert [h][1..] == [];
  }

  lemma ReachedGo(s: State, h: Half, rest: Code)
    requires Next(s, h).Some?
    ensures Reached(s, Go(h, rest)) == Reached(Next(s, h).value, rest)
  {
    hide Next;
    RunAppend(s, [h], Halves(rest));
    RunOne(s, h);
  }

  lemma ReachedHandle(s: State, h: Half, handler: Code, rest: Code)
    requires Next(s, h).Some? && Reached(Next(s, h).value, handler).Some?
    requires Proceed(Reached(Next(s, h).value, handler).value).Some?
    ensures Reached(s, Handle(h, handler, rest)) ==
            Reached(Proceed(Reached(Next(s, h).value, handler).value).value, rest)
  {
    hide Next, RunHalves, Proceed;
    var t := Next(s, h).value;
    var e := Reached(t, handler).value;
    RunAppend(s, [h] + Halves(handler) + [Executes], Halves(rest));
    RunAppend(s, [h] + Halves(handler), [Executes]);
    RunAppend(s, [h], Halves(handler));
    RunOne(s, h);
    RunOne(e, Executes);
    assert Next(e, Executes) == Proceed(e) by { ExecutesProceed(e); }
  }

  lemma ExecutesProceed(e: State)
    ensures Next(e, Executes) == Proceed(e)
  {
    hide Proceed;
  }

  lemma HalfKeeps(s: State, h: Half, live: Live)
    requires s.exc == NoException && TrapIn(s, h).None? && Next(s, h).Some?
    requires Executed(s, h).Some? && IsSystem(Executed(s, h).value) ==> Keeps(s, Next(s, h).value, live)
    ensures Keeps(s, Next(s, h).value, live) && Next(s, h).value.exc == NoException
  {
    hide TrapIn, Executed, IsSystem, Keeps, Proceed, Prepared;
    match h
    case Polls(irq) => QuietPoll(s, irq, live);
    case Executes =>
      if Executed(s, Executes).Some? && IsSystem(Executed(s, Executes).value) {
        QuietProceed(s);
      } else {
        QuietExecution(s, live);
      }
  }

  lemma QuietProceed(s: State)
    requires Proceed(s).Some? && TrapIn(s, Executes).None?
    ensures Proceed(s).value.exc == NoException
  {
    hide FetchAndExecute, Trapped, Add;
  }

  lemma HalfEnters(s: State, h: Half, live: Live)
    requires s.exc == NoException && TrapIn(s, h).Some?
    ensures var b, t := Taking(s, h), TrapIn(s, h).value;
            && Keeps(s, b, live) && b.pc == s.pc && b.mode == s.mode
            && Next(s, h).Some? && Agree(Next(s, h).value, Enter(b, t)) && Next(s, h).value.exc == NoException
  {
    hide TrapIn, Taking, Keeps, Proceed, Prepared, Enter, Agree;
    match h
    case Polls(irq) => EnteringPoll(s, irq, live);
    case Executes => EnteringExecution(s, live);
  }

  /** A trap, the run of its handler, and the return. */
  lemma HandledReturns(s: State, h: Half, e: State, live: Live)
    requires s.exc == NoException && TrapIn(s, h).Some? && s.mode != Invalid && Next(s, h).Some?
    requires e.exc == NoException && Returns(e)
    requires var b, t := Taking(s, h), TrapIn(s, h).value;
             && (if ToSupervisor(b, t) then !live.s && !StatusOf(b.csr).tsr else !live.m)
             && Keeps(Next(s, h).value, e, LiveInHandler(b, t, live))
    ensures Proceed(e).Some?
    ensures var r := Proceed(e).value; Keeps(s, r, live) && r.pc == Even(s.pc) && r.exc == NoException
  {
    hide TrapIn, Taking, Keeps, Proceed, Prepared, Enter, Agree, Returns, Return, StatusOf, ToSupervisor, LiveInHandler,
      Next, Even;
    var b, t := Taking(s, h), TrapIn(s, h).value;
    HalfEnters(s, h, live);
    KeepsAgree(e, Next(s, h).value, Enter(b, t), LiveInHandler(b, t, live));
    TrapReturns(b, t, e, live);
    Returning(e);
    AgreeSymmetric(Proceed(e).value, Return(e));
    KeepsAgree(b, Return(e), Proceed(e).value, live);
    KeepsTrans(s, b, Proceed(e).value, live);
  }

  lemma AgreeSymmetric(a: State, b: State)
    requires Agree(a, b)
    ensures Agree(b, a) && a.pc == b.pc
  {}

  lemma SavedKeeps(s: State, e: State, live: Live)
    requires s.mode == Supervisor || s.mode == Machine
    requires Keeps(s, e, LiveWhileSaved(s, live))
    requires SameEnables(s, e) && if s.mode == Machine then SameMachine(s, e) else SameSupervisor(s, e)
    ensures Keeps(s, e, live)
  {
    hide StatusBits;
  }

  /** Every well-nested run of the machine leaves the mode, the enable bits and the live contexts as
      they were. */
  lemma {:induction false} RunKeeps(s: State, code: Code, live: Live)
    requires s.exc == NoException && WellNested(s, code, live)
    ensures var e := Reached(s, code); e.Some? && Keeps(s, e.value, live) && e.value.exc == NoException
    decreases code
  {
    hide Keeps, Reached, Next, Proceed, TrapIn, Taking, Executed, IsSystem, Returns, ToSupervisor, StatusOf,
      LiveInHandler, LiveWhileSaved, SameMachine, SameSupervisor;
    match code
    case Stop =>
      KeepsSelf(s, live);
      ReachedStop(s);
    case Go(h, rest) =>
      var t := Next(s, h).value;
      HalfKeeps(s, h, live);
      ReachedGo(s, h, rest);
      RunKeeps(t, rest, live);
      KeepsTrans(s, t, Reached(t, rest).value, live);
    case Handle(h, handler, rest) =>
      var b, t, n := Taking(s, h), TrapIn(s, h).value, Next(s, h).value;
      HalfEnters(s, h, live);
      RunKeeps(n, handler, LiveInHandler(b, t, live));
      var e := Reached(n, handler).value;
      HandledReturns(s, h, e, live);
      var r := Proceed(e).value;
      ReachedHandle(s, h, handler, rest);
      RunKeeps(r, rest, live);
      KeepsTrans(s, r, Reached(r, rest).value, live);
    case Saved(body, rest) =>
      RunKeeps(s, body, LiveWhileSaved(s, live));
      var e := Reached(s, body).value;
      SavedKeeps(s, e, live);
      ReachedSaved(s, body, rest);
      RunKeeps(e, rest, live);
      KeepsTrans(s, e, Reached(e, rest).value, live);
  }

  /** In terms of whole steps. */
  lemma StepsKeep(s: State, code: Code, irqs: seq<bool>, live: Live)
    requires s.exc == NoException && WellNested(s, code, live) && Halves(code) == Alternating(irqs)
    ensures Steps(s, irqs).Some? && Keeps(s, Steps(s, irqs).value, live)
  {
    hide Keeps, WellNested, RunHalves, Steps, Halves, Alternating;
    RunKeeps(s, code, live);
    StepsAreHalves(s, irqs);
  }

  lemma ReachedStop(s: State)
    ensures Reached(s, Stop) == Some(s)
  {}

  lemma ReachedSaved(s: State, body: Code, rest: Code)
    requires Reached(s, body).Some?
    ensures Reached(s, Saved(body, rest)) == Reached(Reached(s, body).value, rest)
  {
    hide RunHalves;
    RunAppend(s, Halves(body), Halves(rest));
  }

  /** A trap anywhere in a run of the machine, with any well-nested handler, is transparent to the
      code it interrupts: execution resumes at the interrupted pc, made even, in the interrupted mode,
      with the same interrupt-enable bits and with the context of every outer handler intact. */
  lemma TrapIsTransparent(s: State, h: Half, handler: Code, live: Live)
    requires s.exc == NoException && WellNested(s, Handle(h, handler, Stop), live)
    ensures var r := Reached(s, Handle(h, handler, Stop));
            r.Some? && Keeps(s, r.value, live) && r.value.pc == Even(s.pc)
  {
    hide Keeps, Reached, Next, Proceed, TrapIn, Taking, Executed, IsSystem, Returns, ToSupervisor, StatusOf,
      LiveInHandler, Even;
    var b, t, n := Taking(s, h), TrapIn(s, h).value, Next(s, h).value;
    HalfEnters(s, h, live);
    RunKeeps(n, handler, LiveInHandler(b, t, live));
    var e := Reached(n, handler).value;
    HandledReturns(s, h, e, live);
    ReachedHandle(s, h, handler, Stop);
    ReachedStop(Proceed(e).value);
  }
}
