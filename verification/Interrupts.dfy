/** Which pending interrupt is taken, and in which order they drain (interrupt.cpp). */
module Interrupts {
  import opened Bits
  import opened CsrFile
  import opened PageTable
  import opened Hart
  import opened Traps

  /** Machine external, software, timer, then supervisor external, software, timer:
      section 3.1.9 of the Privileged Architecture. */
  const ORDER: seq<BitIndex> := [11, 3, 7, 9, 1, 5]

  const SEIP: BitIndex := 9

  predicate IsPending(r: Regs, c: BitIndex)
  {
    CsrBit(r, MIE, c) && CsrBit(r, MIP, c)
  }

  /** The first pending interrupt of a priority list. */
  function FirstPending(r: Regs, order: seq<BitIndex>): Option<BitIndex>
  {
    if order == [] then None
    else if IsPending(r, order[0]) then Some(order[0])
    else FirstPending(r, order[1..])
  }

  function Taken(r: Regs, c: BitIndex): Regs
  {
    WriteCsrBit(r, MIP, c, false)
  }

  /** Whether the global enable bit of the current mode keeps interrupts out. */
  predicate Gated(s: State)
  {
    !s.sleep && match s.mode
                case Machine => !StatusOf(s.csr).mie
                case Supervisor => !StatusOf(s.csr).sie
                case _ => false
  }

  /** The poll made before every instruction; `irq` tells whether a device raises its line. */
  function Poll(s: State, irq: bool): (State, Option<BitIndex>)
  {
    if Gated(s) then (s, None)
    else
      var r := if irq then WriteCsrBit(s.csr, MIP, SEIP, true) else s.csr;
      match FirstPending(r, ORDER)
      case None => (s.(csr := r), None)
      case Some(c) => (s.(csr := Taken(r, c)), Some(c))
  }

  /** The pending interrupts of a priority list, in its order. */
  function PendingOf(r: Regs, order: seq<BitIndex>): seq<BitIndex>
  {
    if order == [] then []
    else (if IsPending(r, order[0]) then [order[0]] else []) + PendingOf(r, order[1..])
  }

  /** The interrupts that successive polls deliver while nothing raises another one. */
  function Deliveries(s: State, polls: nat): seq<BitIndex>
    decreases polls
  {
    if polls == 0 then []
    else match Poll(s, false)
      case (_, None) => []
      case (t, Some(c)) => [c] + Deliveries(t, polls - 1)
  }

  /** Taking an interrupt clears its own pending bit and no other. */
  lemma TakenClears(r: Regs, c: BitIndex, d: BitIndex)
    ensures IsPending(Taken(r, c), d) == (IsPending(r, d) && d != c)
    ensures Taken(r, c) == r[MIP := WriteBit(r[MIP], c, false)]
  {
    hide ReadBit, WriteBit;
    BitWritten(r[MIP], c, false);
    if d != c {
      BitKept(r[MIP], c, false, d);
    }
  }

  predicate Distinct(order: seq<BitIndex>)
  {
    forall i, j | 0 <= i < j < |order| :: order[i] != order[j]
  }

  lemma {:induction false} PendingAfterTaken(r: Regs, c: BitIndex, order: seq<BitIndex>)
    requires c !in order
    ensures PendingOf(Taken(r, c), order) == PendingOf(r, order)
  {
    hide IsPending, Taken;
    if order != [] {
      TakenClears(r, c, order[0]);
      PendingAfterTaken(r, c, order[1..]);
    }
  }

  lemma {:induction false} FirstIsHead(r: Regs, order: seq<BitIndex>)
    ensures var p := PendingOf(r, order);
            FirstPending(r, order) == if p == [] then None else Some(p[0])
    ensures forall c | c in PendingOf(r, order) :: c in order
  {
    hide IsPending;
    if order != [] {
      FirstIsHead(r, order[1..]);
    }
  }

  /** Taking the first pending interrupt leaves the rest pending. */
  lemma {:induction false} RestPending(r: Regs, order: seq<BitIndex>)
    requires Distinct(order) && PendingOf(r, order) != []
    ensures PendingOf(Taken(r, PendingOf(r, order)[0]), order) == PendingOf(r, order)[1..]
  {
    hide IsPending, Taken;
    var p, rest := PendingOf(r, order), order[1..];
    TakenClears(r, p[0], order[0]);
    if IsPending(r, order[0]) {
      assert order[0] !in rest;
      PendingAfterTaken(r, order[0], rest);
    } else {
      RestPending(r, rest);
    }
  }

  /** Taking an interrupt does not touch the enable bits that gate the poll. */
  lemma TakenGate(s: State, c: BitIndex)
    ensures Gated(s.(csr := Taken(s.csr, c))) == Gated(s)
  {
    hide WriteBit, StatusBits;
    TakenClears(s.csr, c, c);
  }

  /** Polling drains exactly the pending interrupts, each once, in priority order, unless the global
      enable bit of the mode keeps them out. */
  lemma {:induction false} PollsDrain(s: State, polls: nat)
    requires |PendingOf(s.csr, ORDER)| <= polls
    ensures Deliveries(s, polls) == if Gated(s) then [] else PendingOf(s.csr, ORDER)
    decreases polls
  {
    hide IsPending, Taken, PendingOf, FirstPending, Gated;
    FirstIsHead(s.csr, ORDER);
    var p := PendingOf(s.csr, ORDER);
    if p != [] && !Gated(s) {
      RestPending(s.csr, ORDER);
      TakenGate(s, p[0]);
      PollsDrain(s.(csr := Taken(s.csr, p[0])), polls - 1);
    }
  }

  lemma {:induction false} PendingAtMost(r: Regs, order: seq<BitIndex>)
    ensures |PendingOf(r, order)| <= |order|
  {
    hide IsPending;
    if order != [] {
      PendingAtMost(r, order[1..]);
    }
  }

  /** Six polls are always enough. */
  lemma SixPollsDrain(s: State)
    ensures Deliveries(s, 6) == if Gated(s) then [] else PendingOf(s.csr, ORDER)
  {
    hide Deliveries, PendingOf, Gated;
    PendingAtMost(s.csr, ORDER);
    PollsDrain(s, 6);
  }

  // ---- Privilege ---------------------------------------------------------------------------

  function Rank(p: Priv): nat
  {
    match p
    case User => 0
    case Supervisor => 1
    case Machine => 3
    case Invalid => 4
  }

  /** What changes the privilege mode or the fields it is restored from. */
  datatype Event = TakeTrap(t: Trap) | DoSret | DoMret | WriteCsr(a: Address, v: bv64)

  function Happen(s: State, e: Event): State
  {
    match e
    case TakeTrap(t) => Enter(s, t)
    case DoSret => Sret(s, 0)
    case DoMret => Mret(s, 0)
    case WriteCsr(a, v) => s.(csr := StoreCsr(s.csr, a, v))
  }

  /** Neither the mode nor the mode mret would restore is the reserved one. */
  predicate Lawful(s: State)
  {
    s.mode != Invalid && StatusOf(s.csr).mpp != Invalid
  }

  /** The value has MPP = 2. */
  predicate ReservedMpp(v: bv64) { ReadBit(v, 12) && !ReadBit(v, 11) }

  /** Only stores to mstatus itself can put the reserved value there, and they do when the value
      has it: sstatus does not show MPP. */
  lemma ReservedOnlyThroughMstatus(r: Regs, a: Address, v: bv64)
    requires StatusOf(r).mpp != Invalid
    ensures StatusOf(StoreCsr(r, a, v)).mpp == Invalid <==> a == MSTATUS && ReservedMpp(v)
  {
    hide ReadBit, ReadBits, Merge, And, SstatusMask;
    if a == SSTATUS {
      var w := Merge(r[MSTATUS], v, SstatusMask());
      SstatusSpares();
      MergeAt(r[MSTATUS], v, SstatusMask(), 11);
      MergeAt(r[MSTATUS], v, SstatusMask(), 12);
      FieldOfBits(r[MSTATUS]);
      FieldOfBits(w);
    } else if a == MSTATUS {
      FieldOfBits(v);
    }
  }

  /** Privilege rises at trap entry only, and a lawful state stays lawful exactly when the
      event is not a store to mstatus of a value with MPP = 2. */
  lemma PrivilegeStep(s: State, e: Event)
    requires Lawful(s)
    ensures Rank(Happen(s, e).mode) > Rank(s.mode) ==> e.TakeTrap?
    ensures e.TakeTrap? ==> Rank(Happen(s, e).mode) >= Rank(s.mode)
    ensures Lawful(Happen(s, e)) <==> !(e.WriteCsr? && e.a == MSTATUS && ReservedMpp(e.v))
  {
    hide StatusBits, Enter, SretRegs, MretRegs, CsrBit, MppMode, StoreCsr, ReservedMpp, Back;
    ReadFields(s.csr);
    match e
    case TakeTrap(t) => EntryPrivilege(s, t);
    case DoSret => SretFields(s.csr);
    case DoMret => MretFields(s.csr);
    case WriteCsr(a, v) => ReservedOnlyThroughMstatus(s.csr, a, v);
  }

  lemma EntryPrivilege(s: State, t: Trap)
    requires Lawful(s)
    ensures Rank(Enter(s, t).mode) >= Rank(s.mode) && Lawful(Enter(s, t))
  {
    hide StatusBits, Delegated, SupervisorEntry, MachineEntry, CsrBit, Vector;
    SupervisorEntryFields(s.csr, s.mode, s.pc, t);
    MachineEntryFields(s.csr, s.mode, s.pc, t);
  }

  function Run(s: State, es: seq<Event>): State
    decreases |es|
  {
    if es == [] then s else Run(Happen(s, es[0]), es[1..])
  }

  /** Over every run in which software never writes MPP = 2, the mode stays user, supervisor
      or machine. */
  lemma {:induction false} RunStaysLawful(s: State, es: seq<Event>)
    requires Lawful(s)
    requires forall e | e in es && e.WriteCsr? && e.a == MSTATUS :: !ReservedMpp(e.v)
    ensures Lawful(Run(s, es))
    decreases |es|
  {
    hide Lawful, Happen, ReservedMpp;
    if es != [] {
      PrivilegeStep(s, es[0]);
      RunStaysLawful(Happen(s, es[0]), es[1..]);
    }
  }
}
