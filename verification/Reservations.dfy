/** Load-reserved and store-conditional over whole runs of the machine: a store-conditional
    succeeds exactly when an unconsumed reservation of its address exists. */
module Reservations {
  import opened CsrFile
  import opened Hart
  import opened AccessPath
  import opened Decoder
  import opened Isa
  import opened Compressed
  import opened Atomics
  import opened System
  import opened Traps
  import opened Machine

  datatype Event = Other | Reserve(address: bv64) | Conditional(address: bv64)

  /** What an instruction means for the reservations; addresses are virtual. */
  function EventOf(s: State, w: bv64): Event
  {
    if InsnSize(w) == 2 || Opcode(w) != ATOMIC || (Funct3(w) != 2 && Funct3(w) != 3) then Other
    else if Funct5(w) == LR then Reserve(Reg(s.regs, Rs1(w)))
    else if Funct5(w) == SC then Conditional(Reg(s.regs, Rs1(w)))
    else Other
  }

  function StepEvent(s: State, irq: bool): Event
  {
    var t := Prepared(s, irq);
    if t.sleep then Other
    else
      var (u, w) := MmuFetch(t, t.pc);
      if u.exc != NoException || w == 0 then Other else EventOf(u, w)
  }

  /** The events of a run, oldest first. */
  function History(s: State, irqs: seq<bool>): seq<Event>
    decreases |irqs|
  {
    if irqs == [] then []
    else match Step(s, irqs[0])
      case None => []
      case Some(t) => [StepEvent(s, irqs[0])] + History(t, irqs[1..])
  }

  /** Whether `a` is reserved after an event, or a history, given whether it was before. */
  predicate After(held: bool, e: Event, a: bv64)
  {
    match e
    case Other => held
    case Reserve(b) => held || a == b
    case Conditional(b) => held && a != b
  }

  predicate Held(held: bool, h: seq<Event>, a: bv64)
    decreases |h|
  {
    if h == [] then held else Held(After(held, h[0], a), h[1..], a)
  }

  /** An unconsumed load-reserved: one with no store-conditional to the address after it. */
  ghost predicate Unconsumed(h: seq<Event>, a: bv64)
  {
    exists i :: 0 <= i < |h| && h[i] == Reserve(a) && Conditional(a) !in h[i + 1..]
  }

  /** A history leaves `a` reserved if and only if it holds an unconsumed load-reserved, or it
      consumed nothing and `a` was reserved before. */
  lemma {:induction false} HeldMeans(held: bool, h: seq<Event>, a: bv64)
    ensures Held(held, h, a) <==> Unconsumed(h, a) || (held && Conditional(a) !in h)
    decreases |h|
  {
    if h != [] {
      var rest := h[1..];
      HeldMeans(After(held, h[0], a), rest, a);
      UnconsumedNext(h, a);
    }
  }

  lemma UnconsumedNext(h: seq<Event>, a: bv64)
    requires h != []
    ensures Unconsumed(h, a) <==> Unconsumed(h[1..], a) || (h[0] == Reserve(a) && Conditional(a) !in h[1..])
  {
    var rest := h[1..];
    if Unconsumed(h, a) {
      var i :| 0 <= i < |h| && h[i] == Reserve(a) && Conditional(a) !in h[i + 1..];
      if i > 0 {
        assert rest[i - 1] == Reserve(a) && rest[i - 1 + 1..] == h[i + 1..];
      }
    }
    if Unconsumed(rest, a) {
      var i :| 0 <= i < |rest| && rest[i] == Reserve(a) && Conditional(a) !in rest[i + 1..];
      assert h[i + 1] == Reserve(a) && h[i + 1 + 1..] == rest[i + 1..];
    }
    if h[0] == Reserve(a) && Conditional(a) !in rest {
      assert h[0 + 1..] == rest;
    }
  }

  // ---- The machine follows the events -------------------------------------------------------------

  function AfterEvent(r: set<bv64>, e: Event): set<bv64>
  {
    match e
    case Other => r
    case Reserve(a) => r + {a}
    case Conditional(a) => r - {a}
  }

  lemma AtomicOpEvent(s: State, w: bv64, n: nat)
    ensures AtomicOp(s, w, n).reservations ==
            if Funct5(w) == LR then s.reservations + {Reg(s.regs, Rs1(w))}
            else if Funct5(w) == SC then s.reservations - {Reg(s.regs, Rs1(w))}
            else s.reservations
  {
    hide Checked, Amo, StoreConditional, MmuLoad, Funct5, IsAmo, Reg, Rs1, Rd, Index, Narrow;
    var t := Checked(s, w, n);
    CheckedFrame(s, w, n);
    AmoFrame(t, w, n);
    ConditionalFrame(t, w, n);
  }

  lemma ExecuteEvent(s: State, w: bv64)
    requires Execute(s, w).Some?
    ensures Execute(s, w).value.reservations == AfterEvent(s.reservations, EventOf(s, w))
  {
    hide Effect16, Effect32, Apply, AtomicOp, SystemOp, InsnSize, Opcode, Funct3, Funct5, Reg, Rs1;
    if InsnSize(w) == 2 {
      ApplyFrame(s, Effect16(w, s.regs, s.pc).value);
    } else if Opcode(w) == ATOMIC {
      AtomicOpEvent(s, w, 4);
      AtomicOpEvent(s, w, 8);
    } else if Opcode(w) == SYSTEM {
      SystemKeeps(s, w);
    } else {
      ApplyFrame(s, Effect32(w, s.regs, s.pc, 4).value);
    }
  }

  lemma StepFollows(s: State, irq: bool)
    requires Step(s, irq).Some?
    ensures Step(s, irq).value.reservations == AfterEvent(s.reservations, StepEvent(s, irq))
  {
    hide Prepared, MmuFetch, Execute, EventOf, Enter, LoadCsr, Add, InsnSize;
    PreparedFrame(s, irq);
    var t := Prepared(s, irq);
    FetchFrame(t, t.pc);
    var (u, w) := MmuFetch(t, t.pc);
    if !t.sleep && u.exc == NoException && w != 0 {
      ExecuteEvent(u, w);
    }
    var v := FetchAndExecute(t).value.0;
    EnterFrame(v, Trap.Fault(v.exc, v.excData));
  }

  /** Over every run, the addresses reserved at the end are those the history leaves reserved. */
  lemma {:induction false} ReservationsFollow(s: State, irqs: seq<bool>, a: bv64)
    requires Steps(s, irqs).Some?
    ensures a in Steps(s, irqs).value.reservations <==> Held(a in s.reservations, History(s, irqs), a)
    decreases |irqs|
  {
    hide Step, StepEvent;
    if irqs != [] {
      var t := Step(s, irqs[0]).value;
      StepFollows(s, irqs[0]);
      ReservationsFollow(t, irqs[1..], a);
      assert History(s, irqs)[0] == StepEvent(s, irqs[0]) && History(s, irqs)[1..] == History(t, irqs[1..]);
    }
  }

  /** A store-conditional writes 0 to rd when its address is reserved, and 1 when not. */
  lemma ConditionalResult(s: State, w: bv64, n: nat)
    requires Index(Rd(w)) != 0
    ensures StoreConditional(s, w, n).regs[Index(Rd(w))] == if Reg(s.regs, Rs1(w)) in s.reservations then 0 else 1
  {
    hide MmuStore, Rs1, Rs2, Low, Index, Reg;
    var a := Reg(s.regs, Rs1(w));
    StoreFrame(s.(reservations := s.reservations - {a}), a, n, Low(Reg(s.regs, Rs2(w)), n));
  }

  lemma ConditionalExecuted(t: State, w: bv64, a: bv64)
    requires EventOf(t, w) == Conditional(a) && Index(Rd(w)) != 0
    ensures Execute(t, w).Some?
    ensures Execute(t, w).value.regs[Index(Rd(w))] == if a in t.reservations then 0 else 1
  {
    hide StoreConditional, Checked, LoadReserved, Rs1, Rd, Reg, Index, Opcode, Funct3, Funct5, InsnSize;
    var n := if Funct3(w) == 2 then 4 else 8;
    CheckedFrame(t, w, n);
    ConditionalResult(Checked(t, w, n), w, n);
  }

  /** A store-conditional fetched at the end of any run that started without reservations
      succeeds if and only if the run holds an unconsumed load-reserved of its address. */
  lemma ConditionalSucceeds(s: State, irqs: seq<bool>, irq: bool, w: bv64, a: bv64)
    requires s.reservations == {} && Steps(s, irqs).Some? && Index(Rd(w)) != 0
    requires EventOf(Fetched(Steps(s, irqs).value, irq), w) == Conditional(a)
    ensures var t := Execute(Fetched(Steps(s, irqs).value, irq), w);
            t.Some? && (t.value.regs[Index(Rd(w))] == 0 <==> Unconsumed(History(s, irqs), a))
  {
    hide Execute, Steps, History, Held, Unconsumed, Rd, Index, EventOf, Prepared, MmuFetch, LoadCsr;
    var end := Steps(s, irqs).value;
    PreparedFrame(end, irq);
    FetchFrame(Prepared(end, irq), Prepared(end, irq).pc);
    ConditionalExecuted(Fetched(end, irq), w, a);
    ReservationsFollow(s, irqs, a);
    HeldMeans(false, History(s, irqs), a);
  }

  /** The state in which the next step executes what it fetched. */
  function Fetched(s: State, irq: bool): State
  {
    var t := Prepared(s, irq); MmuFetch(t, t.pc).0
  }

  /** Over every run: a store-conditional that succeeds after an earlier one to the same address
      has a load-reserved of it in between. */
  lemma ReservedBetween(s: State, irqs: seq<bool>, irq: bool, w: bv64, a: bv64, j: nat)
    requires Steps(s, irqs).Some? && Index(Rd(w)) != 0
    requires j < |History(s, irqs)| && History(s, irqs)[j] == Conditional(a)
    requires EventOf(Fetched(Steps(s, irqs).value, irq), w) == Conditional(a)
    ensures var t := Execute(Fetched(Steps(s, irqs).value, irq), w);
            t.Some? && (t.value.regs[Index(Rd(w))] == 0 ==> Reserve(a) in History(s, irqs)[j + 1..])
  {
    hide Execute, Steps, History, Held, Rd, Index, EventOf, Prepared, MmuFetch, LoadCsr;
    var end, h := Steps(s, irqs).value, History(s, irqs);
    PreparedFrame(end, irq);
    FetchFrame(Prepared(end, irq), Prepared(end, irq).pc);
    ConditionalExecuted(Fetched(end, irq), w, a);
    ReservationsFollow(s, irqs, a);
    HeldMeans(a in s.reservations, h, a);
    if Unconsumed(h, a) {
      var i :| 0 <= i < |h| && h[i] == Reserve(a) && Conditional(a) !in h[i + 1..];
      ConsumedAfter(h, i, j, a);
      assert j < i ==> h[j + 1..][i - j - 1] == h[i];
    }
  }

  lemma ConsumedAfter(h: seq<Event>, i: nat, j: nat, a: bv64)
    requires i < |h| && j < |h| && h[j] == Conditional(a)
    ensures i < j ==> Conditional(a) in h[i + 1..]
  {
    if i < j {
      assert h[i + 1..][j - i - 1] == h[j];
    }
  }
}
