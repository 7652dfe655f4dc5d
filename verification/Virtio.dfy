/** The virtio block device (peripherals/virtio.cpp): delayed notification, the layout of the
    rings, and the transfer between disk image and memory. */
module Virtio {
  import opened Memory
  import opened Bits
  import opened PageTable
  import opened MulDiv

  const NOTIFY_RESET := 0xffff_ffff
  const DISK_DELAY := 0x1f4
  const SECTOR := 0x200
  const T_OUT: bv64 := 1

  /** The descriptor table and the two rings. */
  datatype Virtq = Virtq(num: nat, align: nat, desc: nat, avail: nat, used: nat)

  datatype Device = Device(
    id: bv64, clock: nat, notifyClock: nat, queueNotify: nat, isr: bv8, status: bv8,
    vq: Virtq, pageSize: nat, pfn: nat, image: seq<bv8>)

  // ---- Delayed notification --------------------------------------------------------------------

  /** What reaches the device's notification registers: a store to queue_notify, or a tick. */
  datatype Signal = Notify(value: nat) | Tick

  function Low32Of(v: nat): nat { v % TWO32 }

  function NotifyStored(d: Device, value: nat): Device
  {
    d.(queueNotify := Low32Of(value), notifyClock := d.clock)
  }

  /** Whether the tick serves the pending notification; clocks are 64-bit counters. */
  predicate Due(d: Device)
  {
    d.queueNotify != NOTIFY_RESET && d.clock == (d.notifyClock + DISK_DELAY) % TWO64
  }

  /** The effect of a tick on the notification registers. */
  function Ticked(d: Device): Device
  {
    var e := if Due(d) then d.(queueNotify := NOTIFY_RESET) else d;
    e.(clock := (d.clock + 1) % TWO64)
  }

  function Signalled(d: Device, e: Signal): Device
  {
    match e
    case Notify(v) => NotifyStored(d, v)
    case Tick => Ticked(d)
  }

  function AfterSignals(d: Device, h: seq<Signal>): Device
    decreases |h|
  {
    if h == [] then d else Signalled(AfterSignals(d, h[..|h| - 1]), h[|h| - 1])
  }

  function Ticks(h: seq<Signal>): nat
  {
    if h == [] then 0 else Ticks(h[..|h| - 1]) + if h[|h| - 1].Tick? then 1 else 0
  }

  /** A notification other than the reset marker, not superseded, with `k` ticks after it. */
  ghost predicate Pending(h: seq<Signal>, k: nat)
  {
    exists j: nat :: j < |h| && PendingAt(h, j, k)
  }

  predicate PendingAt(h: seq<Signal>, j: nat, k: nat)
    requires j < |h|
  {
    Notifies(h[j]) && NoneNotifies(h[j + 1..]) && Ticks(h[j + 1..]) == k
  }

  predicate Notifies(e: Signal)
  {
    e.Notify? && Low32Of(e.value) != NOTIFY_RESET
  }

  predicate NoneNotifies(h: seq<Signal>)
  {
    forall e | e in h :: e.Tick?
  }

  /** The number of ticks since the last notification, if that was not the reset marker. */
  function Age(h: seq<Signal>): Option<nat>
  {
    if h == [] then None
    else match h[|h| - 1]
      case Notify(v) => if Notifies(h[|h| - 1]) then Some(0) else None
      case Tick =>
        match Age(h[..|h| - 1])
        case None => None
        case Some(k) => Some(k + 1)
  }

  lemma TicksNext(t: seq<Signal>, e: Signal)
    ensures Ticks(t + [e]) == Ticks(t) + if e.Tick? then 1 else 0
  {
    assert (t + [e])[..|t|] == t;
  }

  lemma NoneNext(t: seq<Signal>, e: Signal)
    ensures NoneNotifies(t + [e]) <==> NoneNotifies(t) && e.Tick?
  {
    var u := t + [e];
    assert u[|t|] == e && forall i | 0 <= i < |t| :: u[i] == t[i];
  }

  lemma PendingEarlier(p: seq<Signal>, e: Signal, j: nat, k: nat)
    requires j < |p|
    ensures PendingAt(p + [e], j, k) <==> e.Tick? && k > 0 && PendingAt(p, j, k - 1)
  {
    hide Notifies, NoneNotifies, Ticks;
    assert (p + [e])[j + 1..] == p[j + 1..] + [e];
    TicksNext(p[j + 1..], e);
    NoneNext(p[j + 1..], e);
  }

  lemma PendingLast(p: seq<Signal>, e: Signal, k: nat)
    ensures PendingAt(p + [e], |p|, k) <==> Notifies(e) && k == 0
  {}

  lemma {:induction false} AgeMeans(h: seq<Signal>, k: nat)
    ensures Age(h) == Some(k) <==> Pending(h, k)
    decreases |h|
  {
    hide PendingAt, Notifies;
    if h != [] {
      var p, e := h[..|h| - 1], h[|h| - 1];
      assert h == p + [e];
      if k > 0 {
        AgeMeans(p, k - 1);
      }
      forall j: nat | j < |p|
        ensures PendingAt(h, j, k) <==> e.Tick? && k > 0 && PendingAt(p, j, k - 1)
      {
        PendingEarlier(p, e, j, k);
      }
      PendingLast(p, e, k);
      TicksDoNotNotify(e);
      if Age(h) == Some(k) {
        var j: nat :| j < |h| && if e.Tick? then j < |p| && PendingAt(p, j, k - 1) else j == |p|;
        assert PendingAt(h, j, k);
      }
    }
  }

  lemma TicksDoNotNotify(e: Signal)
    ensures Notifies(e) ==> e.Notify?
  {}

  /** Between signals: while a notification is pending the clock is at most 500 ticks past it. */
  predicate NotifyInv(d: Device, h: seq<Signal>)
  {
    && d.clock < TWO64 && d.notifyClock < TWO64
    && match Age(h)
       case None => d.queueNotify == NOTIFY_RESET
       case Some(k) =>
         if k <= DISK_DELAY then d.queueNotify != NOTIFY_RESET && d.clock == (d.notifyClock + k) % TWO64
         else d.queueNotify == NOTIFY_RESET
  }

  lemma SameClock(c: nat, k: nat)
    requires c < TWO64 && k <= DISK_DELAY
    ensures (c + k) % TWO64 == (c + DISK_DELAY) % TWO64 <==> k == DISK_DELAY
    ensures ((c + k) % TWO64 + 1) % TWO64 == (c + (k + 1)) % TWO64
  {}

  lemma DueAge(d: Device, h: seq<Signal>)
    requires NotifyInv(d, h)
    ensures Due(d) <==> Age(h) == Some(DISK_DELAY)
  {
    hide Age;
    match Age(h)
    case None =>
    case Some(k) => if k <= DISK_DELAY { SameClock(d.notifyClock, k); }
  }

  lemma AgeNext(h: seq<Signal>, e: Signal)
    ensures Age(h + [e]) == match e
                            case Notify(v) => if Notifies(e) then Some(0) else None
                            case Tick => match Age(h) case None => None case Some(k) => Some(k + 1)
  {
    hide Notifies;
    assert (h + [e])[..|h|] == h;
  }

  lemma SignalKeepsInv(d: Device, h: seq<Signal>, e: Signal)
    requires NotifyInv(d, h)
    ensures NotifyInv(Signalled(d, e), h + [e])
  {
    hide Low32Of, Age, Due;
    AgeNext(h, e);
    DueAge(d, h);
    LowBounds(e);
    match Age(h)
    case None =>
    case Some(k) => if k <= DISK_DELAY { SameClock(d.notifyClock, k); }
  }

  lemma LowBounds(e: Signal)
    ensures e.Notify? ==> (Notifies(e) <==> Low32Of(e.value) != NOTIFY_RESET)
  {}

  lemma {:induction false} InvHolds(d: Device, h: seq<Signal>)
    requires d.queueNotify == NOTIFY_RESET && d.clock < TWO64 && d.notifyClock < TWO64
    ensures NotifyInv(AfterSignals(d, h), h)
    decreases |h|
  {
    if h != [] {
      var p, e := h[..|h| - 1], h[|h| - 1];
      InvHolds(d, p);
      SignalKeepsInv(AfterSignals(d, p), p, e);
      assert p + [e] == h;
    }
  }

  /** Over every history, a tick serves a request if and only if it is the 501st tick after a
      notification that is not the reset marker and has not been superseded. */
  lemma ServedOnTick501(d: Device, h: seq<Signal>)
    requires d.queueNotify == NOTIFY_RESET && d.clock < TWO64 && d.notifyClock < TWO64
    ensures Due(AfterSignals(d, h)) <==> Pending(h, DISK_DELAY)
  {
    hide NotifyInv, Due, Age, Pending;
    InvHolds(d, h);
    DueAge(AfterSignals(d, h), h);
    AgeMeans(h, DISK_DELAY);
  }

  // ---- The layout of the rings -------------------------------------------------------------------

  function AlignUp(value: nat, alignment: nat): nat
    requires alignment > 0
  {
    ((value + alignment - 1) / alignment) * alignment
  }

  lemma AlignedUp(value: nat, alignment: nat)
    requires alignment > 0
    ensures AlignUp(value, alignment) % alignment == 0
    ensures value <= AlignUp(value, alignment) < value + alignment
  {
    var q := (value + alignment - 1) / alignment;
    Division(value + alignment - 1, alignment);
    Shifted(q * alignment, 0, q, alignment);
  }

  /** update(): descriptors of 16 bytes, the available ring, then the used ring at the next
      multiple of the alignment. The page number is multiplied in 32 bits. */
  function Laid(d: Device): Virtq
    requires d.vq.align > 0
  {
    var desc := Low32Of(d.pfn * d.pageSize);
    var avail := desc + d.vq.num * 16;
    d.vq.(desc := desc, avail := avail, used := AlignUp(avail + 4 + d.vq.num * 2, d.vq.align))
  }

  /** The used ring as the legacy layout places it: section 2.6.2 of Virtio 1.1, whose available
      ring ends with a used_event field. */
  function LegacyUsed(desc: nat, num: nat, align: nat): nat
    requires align > 0
  {
    AlignUp(desc + 16 * num + 2 * (3 + num), align)
  }

  lemma UniqueMultiple(u: int, v: int, a: nat)
    requires a > 0 && u % a == 0 && v % a == 0 && v - a < u < v + a
    ensures u == v
  {
    QuotientOf(u, a);
    QuotientOf(v, a);
    Multiple(u / a - v / a, a, u - v);
  }

  lemma QuotientOf(u: int, a: nat)
    requires a > 0 && u % a == 0
    ensures u == u / a * a
  {}

  lemma MultipleAt(x: nat, a: nat)
    requires a > 0
    ensures (x - x % a) % a == 0 && (x - x % a + a) % a == 0
  {
    Division(x, a);
    ModUnique(x - x % a, 0, x / a, a);
    ModUnique(x - x % a + a, 0, x / a + 1, a);
  }

  /** Where an address is rounded up to. */
  lemma AlignedTo(x: nat, a: nat)
    requires a > 0
    ensures AlignUp(x, a) == if x % a == 0 then x else x - x % a + a
  {
    hide AlignUp;
    AlignedUp(x, a);
    MultipleAt(x, a);
    UniqueMultiple(AlignUp(x, a), if x % a == 0 then x else x - x % a + a, a);
  }

  /** Two bytes more do not change the rounded address exactly when they fit before it. */
  lemma SameAlignment(x: nat, a: nat)
    requires a > 0
    ensures AlignUp(x, a) == AlignUp(x + 2, a) <==> x % a != 0 && x % a != a - 1
  {
    hide AlignUp;
    AlignedTo(x, a);
    AlignedUp(x + 2, a);
    MultipleAt(x, a);
    if x % a != 0 && x % a != a - 1 {
      UniqueMultiple(AlignUp(x, a), AlignUp(x + 2, a), a);
    }
  }

  /** The parts do not overlap. The emulator leaves no room for used_event behind the available
      ring; its used ring is where the legacy layout has it if and only if the available ring
      ends neither at a multiple of the alignment nor one byte before one. */
  lemma RingLayout(d: Device)
    requires d.vq.align > 0
    ensures var v := Laid(d);
            var end := v.avail + 4 + 2 * v.num;
            && v.desc + 16 * v.num == v.avail && end <= v.used && v.used % v.align == 0
            && (v.used == LegacyUsed(v.desc, v.num, v.align) <==> end % v.align != 0 && end % v.align != v.align - 1)
  {
    hide Low32Of, AlignUp;
    var v := Laid(d);
    AlignedUp(v.avail + 4 + v.num * 2, v.align);
    SameAlignment(v.avail + 4 + v.num * 2, v.align);
  }

  lemma EndInPage(page: nat, num: nat)
    requires page % 4096 == 0
    ensures (page + 18 * num + 4) % 4096 == (18 * num + 4) % 4096
  {}

  /** So it is for every page-aligned queue of a power-of-two size up to the maximum of 1024. */
  lemma LegacyQueues(d: Device)
    requires d.vq.align == 4096 && Laid(d).desc % 4096 == 0
    requires d.vq.num in {1, 2, 4, 8, 16, 32, 64, 128, 256, 512, 1024}
    ensures Laid(d).used == LegacyUsed(Laid(d).desc, d.vq.num, 4096)
  {
    hide Low32Of, AlignUp, LegacyUsed;
    RingLayout(d);
    EndInPage(Laid(d).desc, d.vq.num);
  }

  // ---- A request ------------------------------------------------------------------------------------

  /** Addresses are 64 bits wide. */
  function At(base: nat, offset: nat): nat { (base + offset) % TWO64 }

  datatype Desc = Desc(addr: nat, len: nat, next: nat)

  function LoadDesc(m: Mem, a: nat): Desc
  {
    hide ToNat;
    Desc(ToNat(Load(m, a, 8)), ToNat(Load(m, At(a, 8), 4)), ToNat(Load(m, At(a, 14), 2)))
  }

  /** What the chain of three descriptors that the available ring names asks for. */
  datatype Request = Request(slot: bv64, out: bool, first: nat, buffer: nat, len: nat, status: nat)

  function RequestOf(m: Mem, q: Virtq): Request
    requires q.num > 0
  {
    hide ToNat, Load;
    var idx := Load(m, At(q.avail, 2), 2);
    var slot := Load(m, At(q.avail, 4 + ToNat(idx) % q.num * 2), 2);
    var d0 := LoadDesc(m, At(q.desc, 16 * ToNat(slot)));
    var d1 := LoadDesc(m, At(q.desc, 16 * d0.next));
    var d2 := LoadDesc(m, At(q.desc, 16 * d1.next));
    var sector := ToNat(Load(m, At(d0.addr, 8), 8));
    Request(slot, Load(m, d0.addr, 4) == T_OUT, sector * SECTOR % TWO64, d1.addr, d1.len, d2.addr)
  }

  function ByteAt(m: Mem, a: nat): bv8 { LowByte(Load(m, a, 1)) }

  /** The `n` bytes of memory from `a` on. */
  function BytesFrom(m: Mem, a: nat, n: nat): (b: seq<bv8>)
    ensures |b| == n
  {
    seq(n, i requires 0 <= i < n => ByteAt(m, At(a, i)))
  }

  /** Memory after the first `n` of the bytes are stored from `a` on. */
  function WithBytes(m: Mem, a: nat, b: seq<bv8>, n: nat): (m': Mem)
    requires n <= |b|
    ensures m'.base == m.base && |m'.data| == |m.data|
  {
    if n == 0 then m else Store(WithBytes(m, a, b, n - 1), At(a, n - 1), 1, b[n - 1] as bv64)
  }

  predicate InImage(d: Device, r: Request)
  {
    r.first + r.len <= |d.image|
  }

  /** The used index is 16 bits wide. */
  function Next(id: bv64): bv64 { (id + 1) & 0xffff }

  /** The status byte, the slot in the used ring, and the used index. */
  function Completed(m: Mem, q: Virtq, id: bv64, r: Request): Mem
    requires q.num > 0
  {
    var m1 := Store(m, r.status, 1, 0);
    var m2 := Store(m1, At(q.used, 4 + ToNat(id) % q.num * 8), 2, r.slot);
    Store(m2, At(q.used, 2), 2, Next(id))
  }

  /** access_disk. */
  function Transfer(m: Mem, d: Device): (Mem, Device)
    requires d.vq.num > 0 && InImage(d, RequestOf(m, d.vq))
  {
    var r := RequestOf(m, d.vq);
    if r.out then
      var image := d.image[..r.first] + BytesFrom(m, r.buffer, r.len) + d.image[r.first + r.len..];
      (Completed(m, d.vq, d.id, r), d.(image := image, id := Next(d.id)))
    else
      var b := d.image[r.first..r.first + r.len];
      (Completed(WithBytes(m, r.buffer, b, r.len), d.vq, d.id, r), d.(id := Next(d.id)))
  }

  // ---- Write, then read -------------------------------------------------------------------------------

  predicate InMemory(m: Mem, a: nat, n: nat)
  {
    m.base <= a && a + n <= m.base + |m.data| <= TWO64
  }

  predicate Apart(a: nat, n: nat, b: nat, l: nat)
  {
    a + n <= b || b + l <= a
  }

  /** The buffer overlaps neither the status byte nor the used ring's slot and index. */
  predicate BufferApart(d: Device, r: Request)
    requires d.vq.num > 0
  {
    && Apart(r.buffer, r.len, r.status, 1)
    && Apart(r.buffer, r.len, At(d.vq.used, 4 + ToNat(d.id) % d.vq.num * 8), 2)
    && Apart(r.buffer, r.len, At(d.vq.used, 2), 2)
  }

  lemma AtInMemory(m: Mem, a: nat, n: nat, i: nat)
    requires InMemory(m, a, n) && i < n
    ensures At(a, i) == a + i
  {}

  lemma ByteBack(b: bv8)
    ensures LowByte(And(b as bv64, Mask(1))) == b
  {
    ByteMask();
    ByteMasked(b);
  }

  lemma ByteMask()
    ensures Mask(1) == 0xff
  {
    assert Mask(0) == 0;
    assert Cons(0xff, 0) == 0xff;
  }

  lemma ByteMasked(b: bv8)
    ensures LowByte(And(b as bv64, 0xff)) == b
  {}

  /** Bytes stored one by one read back. */
  lemma {:induction false} WithBytesRead(m: Mem, a: nat, b: seq<bv8>, n: nat, i: nat)
    requires InMemory(m, a, |b|) && i < n <= |b|
    ensures ByteAt(WithBytes(m, a, b, n), a + i) == b[i]
    decreases n
  {
    hide Load, Store, LowByte, And, Mask;
    var p := WithBytes(m, a, b, n - 1);
    AtInMemory(m, a, |b|, n - 1);
    if i == n - 1 {
      LoadStored(p, a + i, 1, b[i] as bv64);
      ByteBack(b[i]);
    } else {
      WithBytesRead(m, a, b, n - 1, i);
      LoadElsewhere(p, a + n - 1, 1, b[n - 1] as bv64, a + i, 1);
    }
  }

  /** What completes a request leaves the buffer alone. */
  lemma CompletedElsewhere(m: Mem, d: Device, r: Request, i: nat)
    requires d.vq.num > 0 && BufferApart(d, r) && i < r.len
    ensures ByteAt(Completed(m, d.vq, d.id, r), r.buffer + i) == ByteAt(m, r.buffer + i)
  {
    hide Load, Store, LowByte, ToNat, At;
    var slot := At(d.vq.used, 4 + ToNat(d.id) % d.vq.num * 8);
    var m1 := Store(m, r.status, 1, 0);
    var m2 := Store(m1, slot, 2, r.slot);
    LoadElsewhere(m, r.status, 1, 0, r.buffer + i, 1);
    LoadElsewhere(m1, slot, 2, r.slot, r.buffer + i, 1);
    LoadElsewhere(m2, At(d.vq.used, 2), 2, Next(d.id), r.buffer + i, 1);
  }

  /** A read request puts the image's bytes in its buffer. */
  lemma ReadRequest(m: Mem, d: Device)
    requires d.vq.num > 0 && InImage(d, RequestOf(m, d.vq)) && !RequestOf(m, d.vq).out
    requires var r := RequestOf(m, d.vq); InMemory(m, r.buffer, r.len) && BufferApart(d, r)
    ensures var r, (m', d') := RequestOf(m, d.vq), Transfer(m, d);
            BytesFrom(m', r.buffer, r.len) == d.image[r.first..r.first + r.len] && d'.image == d.image
  {
    hide ByteAt, Completed, WithBytes, RequestOf, BufferApart;
    var r := RequestOf(m, d.vq);
    var b := d.image[r.first..r.first + r.len];
    var (m', d') := Transfer(m, d);
    forall i | 0 <= i < r.len
      ensures BytesFrom(m', r.buffer, r.len)[i] == b[i]
    {
      AtInMemory(m, r.buffer, r.len, i);
      CompletedElsewhere(WithBytes(m, r.buffer, b, r.len), d, r, i);
      WithBytesRead(m, r.buffer, b, r.len, i);
    }
  }

  /** A write request puts its buffer in the image and changes no other byte of it. */
  lemma WriteRequest(m: Mem, d: Device)
    requires d.vq.num > 0 && InImage(d, RequestOf(m, d.vq)) && RequestOf(m, d.vq).out
    ensures var r, d' := RequestOf(m, d.vq), Transfer(m, d).1;
            && |d'.image| == |d.image|
            && d'.image[r.first..r.first + r.len] == BytesFrom(m, r.buffer, r.len)
            && forall k | 0 <= k < |d.image| :: k < r.first || k >= r.first + r.len ==> d'.image[k] == d.image[k]
  {
    hide Completed, RequestOf, ByteAt;
  }

  /** A write request and a later read request of the same sectors, with any other memory
      traffic in between: the read buffer ends up with the bytes that were written. */
  lemma WriteThenRead(m1: Mem, d1: Device, m3: Mem, d3: Device)
    requires d1.vq.num > 0 && InImage(d1, RequestOf(m1, d1.vq)) && RequestOf(m1, d1.vq).out
    requires d3.image == Transfer(m1, d1).1.image
    requires d3.vq.num > 0 && !RequestOf(m3, d3.vq).out
    requires var r, w := RequestOf(m3, d3.vq), RequestOf(m1, d1.vq);
             r.first == w.first && r.len == w.len && InMemory(m3, r.buffer, r.len) && BufferApart(d3, r)
    ensures InImage(d3, RequestOf(m3, d3.vq))
    ensures var r, w := RequestOf(m3, d3.vq), RequestOf(m1, d1.vq);
            BytesFrom(Transfer(m3, d3).0, r.buffer, r.len) == BytesFrom(m1, w.buffer, w.len)
  {
    hide RequestOf, BytesFrom, Completed, WithBytes, BufferApart, InMemory;
    WriteRequest(m1, d1);
    ReadRequest(m3, d3);
  }

  lemma NextMasked(id: bv64)
    ensures And(Next(id), 0xffff) == Next(id)
  {}

  lemma HalfMask()
    ensures Mask(2) == 0xffff
  {}

  /** Every request advances the used index in memory by one modulo 2^16. */
  lemma UsedIndexAdvances(m: Mem, d: Device)
    requires d.vq.num > 0 && InImage(d, RequestOf(m, d.vq))
    requires InMemory(m, At(d.vq.used, 2), 2)
    ensures var (m', d') := Transfer(m, d);
            Load(m', At(d.vq.used, 2), 2) == d'.id && d'.id == Next(d.id)
  {
    hide RequestOf, WithBytes, Store, Load, Mask, And, Next, At, ToNat, BytesFrom;
    var r := RequestOf(m, d.vq);
    var p := if r.out then m else WithBytes(m, r.buffer, d.image[r.first..r.first + r.len], r.len);
    var m2 := Store(Store(p, r.status, 1, 0), At(d.vq.used, 4 + ToNat(d.id) % d.vq.num * 8), 2, r.slot);
    LoadStored(m2, At(d.vq.used, 2), 2, Next(d.id));
    HalfMask();
    NextMasked(d.id);
  }
}
