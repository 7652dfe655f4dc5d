/** Traps nest like a stack: what a trap, the return from it, and a save and restore of the trap
    registers in between do to the contexts of other traps. */
module Nesting {
  import opened Bits
  import opened CsrFile
  import opened PageTable
  import opened Hart
  import opened Traps

  /** Which levels' trap registers hold a return that is still to come, and which interrupt-enable
      bits are to stay. */
  datatype Live = Live(s: bool, m: bool, sie: bool, mie: bool)

  predicate SameSupervisor(a: State, b: State)
  {
    && a.csr[SEPC] == b.csr[SEPC] && a.csr[SCAUSE] == b.csr[SCAUSE] && a.csr[STVAL] == b.csr[STVAL]
    && StatusOf(a.csr).spie == StatusOf(b.csr).spie && StatusOf(a.csr).spp == StatusOf(b.csr).spp
  }

  predicate SameMachine(a: State, b: State)
  {
    && a.csr[MEPC] == b.csr[MEPC] && a.csr[MCAUSE] == b.csr[MCAUSE] && a.csr[MTVAL] == b.csr[MTVAL]
    && StatusOf(a.csr).mpie == StatusOf(b.csr).mpie && StatusOf(a.csr).mpp == StatusOf(b.csr).mpp
  }

  predicate SameEnables(a: State, b: State)
  {
    StatusOf(a.csr).sie == StatusOf(b.csr).sie && StatusOf(a.csr).mie == StatusOf(b.csr).mie
  }

  /** The mode, TSR, the interrupt-enable bits, unless they are free, and every live context of `a`
      are still there in `b`. */
  predicate Keeps(a: State, b: State, live: Live)
  {
    && a.mode == b.mode && StatusOf(a.csr).tsr == StatusOf(b.csr).tsr
    && (live.sie ==> StatusOf(a.csr).sie == StatusOf(b.csr).sie)
    && (live.mie ==> StatusOf(a.csr).mie == StatusOf(b.csr).mie)
    && (live.s ==> SameSupervisor(a, b))
    && (live.m ==> SameMachine(a, b))
  }

  /** A return instruction, with the step's length of 4 added to pc. */
  function Return(s: State): State
  {
    var r := if s.mode == Machine then Mret(s, 0) else Sret(s, 0);
    r.(pc := r.pc + 4)
  }

  /** A handler writes back the trap registers that it read in `saved`. */
  function Restore(saved: State, s: State): State
  {
    s.(csr := if s.mode == Machine then RestoreMachine(saved.csr, s.csr) else RestoreSupervisor(saved.csr, s.csr))
  }

  function RestoreSupervisor(saved: Regs, r: Regs): Regs
  {
    var r := StoreCsr(r, SEPC, LoadCsr(saved, SEPC));
    var r := StoreCsr(r, SCAUSE, LoadCsr(saved, SCAUSE));
    var r := StoreCsr(r, STVAL, LoadCsr(saved, STVAL));
    StoreCsr(r, SSTATUS, LoadCsr(saved, SSTATUS))
  }

  function RestoreMachine(saved: Regs, r: Regs): Regs
  {
    var r := StoreCsr(r, MEPC, LoadCsr(saved, MEPC));
    var r := StoreCsr(r, MCAUSE, LoadCsr(saved, MCAUSE));
    var r := StoreCsr(r, MTVAL, LoadCsr(saved, MTVAL));
    StoreCsr(r, MSTATUS, LoadCsr(saved, MSTATUS))
  }

  function LiveInHandler(s: State, t: Trap, live: Live): Live
  {
    if ToSupervisor(s, t) then Live(true, live.m, true, true) else Live(live.s, true, true, true)
  }

  /** While a handler has its own registers saved it may also enable its interrupts. */
  function LiveWhileSaved(s: State, live: Live): Live
  {
    if s.mode == Machine then Live(live.s, false, false, false) else Live(false, live.m, false, live.mie)
  }

  lemma KeepsTrans(a: State, b: State, c: State, live: Live)
    requires Keeps(a, b, live) && Keeps(b, c, live)
    ensures Keeps(a, c, live)
  {
    hide StatusOf;
  }

  lemma PlusMinus(x: bv64)
    ensures Back(x) + 4 == x
  {}

  lemma SppMode(s: State)
    requires s.mode == User || s.mode == Supervisor
    ensures (ModeCode(s.mode) != 0) == (s.mode == Supervisor)
  {}

  lemma SupervisorTrapReturns(s: State, t: Trap, e: State, live: Live)
    requires ToSupervisor(s, t) && !live.s && !StatusOf(s.csr).tsr
    requires Keeps(Enter(s, t), e, LiveInHandler(s, t, live))
    ensures Keeps(s, Return(e), live) && Return(e).pc == Back(Even(s.pc)) + 4
  {
    hide StatusBits, Even, CauseOf, ValueOf, Vector, CsrBit, SretRegs, MretRegs, SupervisorEntry, MachineEntry,
      Delegated, ModeCode, MppMode, Back;
    ReadFields(e.csr);
    SretFields(e.csr);
    SupervisorEntryFields(s.csr, s.mode, s.pc, t);
    SppMode(s);
  }

  lemma MachineTrapReturns(s: State, t: Trap, e: State, live: Live)
    requires !ToSupervisor(s, t) && !live.m && s.mode != Invalid
    requires Keeps(Enter(s, t), e, LiveInHandler(s, t, live))
    ensures Keeps(s, Return(e), live) && Return(e).pc == Back(Even(s.pc)) + 4
  {
    hide StatusBits, Even, CauseOf, ValueOf, Vector, CsrBit, SretRegs, MretRegs, SupervisorEntry, MachineEntry,
      Delegated, ModeCode, MppMode, Back;
    ReadFields(e.csr);
    MretFields(e.csr);
    MachineEntryFields(s.csr, s.mode, s.pc, t);
  }

  /** One trap whose handler keeps its own context: the return resumes the interrupted code. */
  lemma TrapReturns(s: State, t: Trap, e: State, live: Live)
    requires if ToSupervisor(s, t) then !live.s && !StatusOf(s.csr).tsr else !live.m
    requires s.mode != Invalid
    requires Keeps(Enter(s, t), e, LiveInHandler(s, t, live))
    ensures Keeps(s, Return(e), live)
    ensures Return(e).pc == Even(s.pc)
  {
    hide StatusOf, Even, ToSupervisor, Keeps, LiveInHandler, Return, Enter;
    PlusMinus(Even(s.pc));
    if ToSupervisor(s, t) {
      SupervisorTrapReturns(s, t, e, live);
    } else {
      MachineTrapReturns(s, t, e, live);
    }
  }

  lemma RestoreFields(saved: Regs, r: Regs)
    ensures var r', u, v := RestoreSupervisor(saved, r), StatusOf(saved), StatusOf(r);
            && r' == r[SEPC := saved[SEPC]][SCAUSE := saved[SCAUSE]][STVAL := saved[STVAL]][MSTATUS := r'[MSTATUS]]
            && StatusOf(r') == v.(sie := u.sie, spie := u.spie, spp := u.spp)
    ensures var r' := RestoreMachine(saved, r);
            && r' == r[MEPC := saved[MEPC]][MCAUSE := saved[MCAUSE]][MTVAL := saved[MTVAL]][MSTATUS := r'[MSTATUS]]
            && StatusOf(r') == StatusOf(saved)
  {
    hide StatusBits, WithUxl, Merge, And, SstatusMask;
    UxlStatus(saved[MSTATUS]);
    SstatusRestored(r[MSTATUS], saved[MSTATUS]);
  }

  lemma SstatusRestored(o: bv64, v: bv64)
    ensures StatusBits(Merge(o, And(v, SstatusMask()), SstatusMask())) ==
            StatusBits(o).(sie := StatusBits(v).sie, spie := StatusBits(v).spie, spp := StatusBits(v).spp)
  {
    hide ReadBit, ReadBits, Merge, And, SstatusMask;
    var w := Merge(o, And(v, SstatusMask()), SstatusMask());
    SstatusCovers();
    SstatusSpares();
    FieldOfBits(o);
    FieldOfBits(w);
    forall j: BitIndex
      ensures ReadBit(w, j) == if ReadBit(SstatusMask(), j) then ReadBit(v, j) else ReadBit(o, j)
    {
      MergeAt(o, And(v, SstatusMask()), SstatusMask(), j);
      MaskedAt(v, SstatusMask(), j);
    }
  }

  /** A handler that writes back the trap registers it found has its context and its enable bits again. */
  lemma SaveReturns(s: State, e: State, live: Live)
    requires s.mode == Supervisor || s.mode == Machine
    requires Keeps(s, e, LiveWhileSaved(s, live))
    ensures Keeps(s, Restore(s, e), live)
  {
    hide StatusBits, RestoreSupervisor, RestoreMachine;
    RestoreFields(s.csr, e.csr);
  }

  lemma KeepsSelf(s: State, live: Live)
    ensures Keeps(s, s, live)
  {}

  /** The case the rules are made for: a trap to machine mode, of any kind that supervisor mode
      does not get, taken inside a supervisor handler. */
  lemma MachineTrapInSupervisorHandler(s: State, t: Trap, inner: Trap)
    requires ToSupervisor(s, t) && !StatusOf(s.csr).tsr && !ToSupervisor(Enter(s, t), inner)
    ensures var h := Enter(s, t);
            var back := Return(Enter(h, inner));
            && SameSupervisor(h, back) && back.mode == Supervisor && back.pc == Even(h.pc)
            && Keeps(s, Return(back), Live(false, false, true, true)) && Return(back).pc == Even(s.pc)
  {
    hide Keeps, Return, Enter, StatusOf, ToSupervisor, SameSupervisor;
    var none, h := Live(false, false, true, true), Enter(s, t);
    assert h.mode == Supervisor by { EnterMode(s, t); }
    KeepsSelf(Enter(h, inner), LiveInHandler(h, inner, LiveInHandler(s, t, none)));
    TrapReturns(h, inner, Enter(h, inner), LiveInHandler(s, t, none));
    var back := Return(Enter(h, inner));
    KeepsContext(h, back, LiveInHandler(s, t, none));
    SupervisorMode(s, t);
    TrapReturns(s, t, back, none);
  }

  lemma EnterMode(s: State, t: Trap)
    ensures Enter(s, t).mode == if ToSupervisor(s, t) then Supervisor else Machine
  {
    hide ToSupervisor;
  }

  lemma SupervisorMode(s: State, t: Trap)
    requires ToSupervisor(s, t)
    ensures s.mode != Invalid
  {}

  lemma KeepsContext(a: State, b: State, live: Live)
    requires Keeps(a, b, live)
    ensures a.mode == b.mode && (live.s ==> SameSupervisor(a, b))
  {}
}
