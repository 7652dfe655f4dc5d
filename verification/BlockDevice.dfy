/** The virtio block device as an object that shares RAM with the hart (peripherals/virtio.cpp).
    The configuration and feature registers are left out. */
module BlockDevice {
  import opened Memory
  import opened Bits
  import opened PageTable
  import opened Hart
  import opened Emulator
  import opened Virtio

  function StatusReset(d: Device): Device
  {
    d.(id := 0, isr := 0)
  }

  /** The stores that lay out the queue: to queue_pfn, and to status with bit 2 set. A zero alignment
      is undefined then. */
  predicate LaysOut(offset: nat, value: bv64)
  {
    offset == 0x40 || (offset == 0x70 && LowByte(value) & 4 != 0)
  }

  /** A store to a register, by its offset in the device. */
  function RegisterStored(d: Device, offset: nat, value: bv64): Device
    requires LaysOut(offset, value) ==> d.vq.align > 0
  {
    hide ToNat, Low32Of;
    var v := ToNat(value);
    match offset
    case 0x28 => d.(pageSize := Low32Of(v))
    case 0x38 => d.(vq := d.vq.(num := Low32Of(v)))
    case 0x3c => d.(vq := d.vq.(align := Low32Of(v)))
    case 0x40 => var e := d.(pfn := Low32Of(v)); e.(vq := Laid(e))
    case 0x50 => NotifyStored(d, v)
    case 0x64 => d.(isr := LowByte(Not(value)))
    case 0x70 =>
      var e := d.(status := LowByte(value));
      if e.status == 0 then StatusReset(e)
      else if e.status & 4 != 0 then e.(vq := Laid(e))
      else e
    case _ => d
  }

  // ---- The device on the bus of the hart ------------------------------------------------------------

  /** A load of the device outside RAM raises in the hart. */
  function Probed(s: State, a: nat): (t: State)
    ensures t == s.(exc := t.exc, excData := t.excData)
  {
    if InRam(s.mem, a) then s else Raise(s, LoadAccessFault, 0)
  }

  /** So does a store, which then stores nothing. */
  function Put(s: State, a: nat, n: nat, v: bv64): (t: State)
    ensures t == s.(mem := Store(s.mem, a, n, v), exc := t.exc, excData := t.excData)
  {
    var t := s.(mem := Store(s.mem, a, n, v));
    if InRam(s.mem, a) then t else Raise(t, StoreAccessFault, 0)
  }

  /** The four loads of a descriptor. */
  function DescProbed(s: State, a: nat): (t: State)
    ensures t == s.(exc := t.exc, excData := t.excData)
  {
    hide InRam, At;
    Probed(Probed(Probed(Probed(s, a), At(a, 8)), At(a, 12)), At(a, 14))
  }

  /** The loads of the first `n` bytes of a buffer. */
  function BufferProbed(s: State, buffer: nat, n: nat): State
  {
    if n == 0 then s else Probed(BufferProbed(s, buffer, n - 1), At(buffer, n - 1))
  }

  /** The stores of the first `n` bytes of a buffer. */
  function BufferPut(s: State, buffer: nat, b: seq<bv8>, n: nat): State
    requires n <= |b|
  {
    if n == 0 then s else Put(BufferPut(s, buffer, b, n - 1), At(buffer, n - 1), 1, b[n - 1] as bv64)
  }

  /** The addresses that lead to a request: the available ring's index and slot, the three
      descriptors, and the fields of the request's header. */
  datatype Route = Route(idx: nat, slot: nat, d0: nat, d1: nat, d2: nat, kind: nat, sector: nat)

  function RouteOf(m: Mem, q: Virtq): Route
    requires q.num > 0
  {
    hide ToNat, Load;
    var slotAt := At(q.avail, 4 + ToNat(Load(m, At(q.avail, 2), 2)) % q.num * 2);
    var a0 := At(q.desc, 16 * ToNat(Load(m, slotAt, 2)));
    var a1 := At(q.desc, 16 * LoadDesc(m, a0).next);
    var a2 := At(q.desc, 16 * LoadDesc(m, a1).next);
    Route(At(q.avail, 2), slotAt, a0, a1, a2, LoadDesc(m, a0).addr, At(LoadDesc(m, a0).addr, 8))
  }

  function RouteProbed(s: State, t: Route): State
  {
    var u := Probed(Probed(s, t.idx), t.slot);
    var u := DescProbed(DescProbed(DescProbed(u, t.d0), t.d1), t.d2);
    Probed(Probed(u, t.kind), t.sector)
  }

  /** The stores that end a request. */
  function CompletedIn(s: State, q: Virtq, id: bv64, r: Request): State
    requires q.num > 0
  {
    Put(Put(Put(s, r.status, 1, 0), At(q.used, 4 + ToNat(id) % q.num * 8), 2, r.slot), At(q.used, 2), 2, Next(id))
  }

  /** access_disk as the hart sees it. */
  function ServedIn(s: State, d: Device): State
    requires d.vq.num > 0 && InImage(d, RequestOf(s.mem, d.vq))
  {
    var r := RequestOf(s.mem, d.vq);
    var t := RouteProbed(s, RouteOf(s.mem, d.vq));
    CompletedIn(if r.out then BufferProbed(t, r.buffer, r.len)
                else BufferPut(t, r.buffer, d.image[r.first..r.first + r.len], r.len), d.vq, d.id, r)
  }

  /** What a request needs to be defined: a queue, and an image that holds its sectors. */
  predicate Servable(m: Mem, d: Device)
  {
    d.vq.num > 0 && InImage(d, RequestOf(m, d.vq))
  }

  // ---- What the hart sees of a request ------------------------------------------------------------------

  /** The same but for the exception. */
  predicate SameButFault(s: State, t: State)
  {
    t == s.(exc := t.exc, excData := t.excData)
  }

  predicate DescInRam(m: Mem, a: nat)
  {
    InRam(m, a) && InRam(m, At(a, 8)) && InRam(m, At(a, 12)) && InRam(m, At(a, 14))
  }

  predicate BufferInRam(m: Mem, a: nat, n: nat)
  {
    forall i | 0 <= i < n :: InRam(m, At(a, i))
  }

  predicate RouteInRam(m: Mem, t: Route)
  {
    && InRam(m, t.idx) && InRam(m, t.slot) && DescInRam(m, t.d0) && DescInRam(m, t.d1) && DescInRam(m, t.d2)
    && InRam(m, t.kind) && InRam(m, t.sector)
  }

  predicate EndInRam(m: Mem, q: Virtq, id: bv64, r: Request)
    requires q.num > 0
  {
    InRam(m, r.status) && InRam(m, At(q.used, 4 + ToNat(id) % q.num * 8)) && InRam(m, At(q.used, 2))
  }

  /** Every address the request touches is in RAM. */
  predicate DmaInRam(m: Mem, d: Device)
    requires d.vq.num > 0
  {
    var r := RequestOf(m, d.vq);
    RouteInRam(m, RouteOf(m, d.vq)) && BufferInRam(m, r.buffer, r.len) && EndInRam(m, d.vq, d.id, r)
  }

  predicate Quiet(s: State) { s.exc == NoException }

  /** `t` follows `s` with the exception it had, if the access was in RAM, or with a new one. */
  predicate Follows(s: State, t: State, ok: bool)
  {
    Quiet(t) <==> Quiet(s) && ok
  }

  lemma DescFollows(s: State, a: nat)
    ensures SameButFault(s, DescProbed(s, a)) && Follows(s, DescProbed(s, a), DescInRam(s.mem, a))
  {
    hide InRam, At;
  }

  lemma RouteFollows(s: State, t: Route)
    ensures SameButFault(s, RouteProbed(s, t)) && Follows(s, RouteProbed(s, t), RouteInRam(s.mem, t))
  {
    hide InRam, DescProbed, DescInRam;
    var u := Probed(Probed(s, t.idx), t.slot);
    DescFollows(u, t.d0);
    DescFollows(DescProbed(u, t.d0), t.d1);
    DescFollows(DescProbed(DescProbed(u, t.d0), t.d1), t.d2);
  }

  lemma {:induction false} BufferProbedFollows(s: State, a: nat, n: nat)
    ensures SameButFault(s, BufferProbed(s, a, n)) && Follows(s, BufferProbed(s, a, n), BufferInRam(s.mem, a, n))
  {
    hide InRam, At;
    if n > 0 {
      BufferProbedFollows(s, a, n - 1);
      assert BufferInRam(s.mem, a, n) <==> BufferInRam(s.mem, a, n - 1) && InRam(s.mem, At(a, n - 1));
    }
  }

  lemma SameRam(m: Mem, m': Mem, a: nat)
    requires m'.base == m.base && |m'.data| == |m.data|
    ensures InRam(m', a) == InRam(m, a)
  {}

  lemma {:induction false} BufferPutFollows(s: State, a: nat, b: seq<bv8>, n: nat)
    requires n <= |b|
    ensures var t := BufferPut(s, a, b, n);
            && SameButFault(s.(mem := WithBytes(s.mem, a, b, n)), t)
            && Follows(s, t, BufferInRam(s.mem, a, n))
  {
    hide InRam, At, Store;
    if n > 0 {
      BufferPutFollows(s, a, b, n - 1);
      var m' := WithBytes(s.mem, a, b, n - 1);
      SameRam(s.mem, m', At(a, n - 1));
      assert BufferInRam(s.mem, a, n) <==> BufferInRam(s.mem, a, n - 1) && InRam(s.mem, At(a, n - 1));
    }
  }

  lemma PutFollows(s: State, a: nat, n: nat, v: bv64)
    ensures Follows(s, Put(s, a, n, v), InRam(s.mem, a))
  {
    hide InRam, Store;
  }

  lemma EndFollows(s: State, q: Virtq, id: bv64, r: Request)
    requires q.num > 0
    ensures var t := CompletedIn(s, q, id, r);
            && SameButFault(s.(mem := Completed(s.mem, q, id, r)), t)
            && Follows(s, t, EndInRam(s.mem, q, id, r))
  {
    hide InRam, At, Store, ToNat, Next, Put;
    var slotAt := At(q.used, 4 + ToNat(id) % q.num * 8);
    var s1 := Put(s, r.status, 1, 0);
    var s2 := Put(s1, slotAt, 2, r.slot);
    PutFollows(s, r.status, 1, 0);
    PutFollows(s1, slotAt, 2, r.slot);
    PutFollows(s2, At(q.used, 2), 2, Next(id));
    SameRam(s.mem, s1.mem, slotAt);
    SameRam(s.mem, s2.mem, At(q.used, 2));
  }

  lemma SameEnd(m: Mem, m': Mem, q: Virtq, id: bv64, r: Request)
    requires q.num > 0 && m'.base == m.base && |m'.data| == |m.data|
    ensures EndInRam(m', q, id, r) == EndInRam(m, q, id, r)
  {}

  /** A request changes the memory as `Transfer` says and nothing else of the hart but the exception,
      and it raises one if and only if it touches an address outside RAM. */
  lemma ServedMeans(s: State, d: Device)
    requires Servable(s.mem, d)
    ensures SameButFault(s.(mem := Transfer(s.mem, d).0), ServedIn(s, d))
    ensures Quiet(s) ==> (Quiet(ServedIn(s, d)) <==> DmaInRam(s.mem, d))
  {
    hide RequestOf, RouteOf, RouteProbed, RouteInRam, BufferProbed, BufferPut, BufferInRam, CompletedIn, EndInRam,
      Completed, WithBytes, BytesFrom;
    var r := RequestOf(s.mem, d.vq);
    var t := RouteProbed(s, RouteOf(s.mem, d.vq));
    RouteFollows(s, RouteOf(s.mem, d.vq));
    if r.out {
      BufferProbedFollows(t, r.buffer, r.len);
      EndFollows(BufferProbed(t, r.buffer, r.len), d.vq, d.id, r);
    } else {
      var b := d.image[r.first..r.first + r.len];
      BufferPutFollows(t, r.buffer, b, r.len);
      SameEnd(s.mem, WithBytes(s.mem, r.buffer, b, r.len), d.vq, d.id, r);
      EndFollows(BufferPut(t, r.buffer, b, r.len), d.vq, d.id, r);
    }
  }

  /** A tick as the hart sees it. */
  function TickedIn(s: State, d: Device): State
    requires Due(d) ==> Servable(s.mem, d)
  {
    if Due(d) then ServedIn(s, d) else s
  }

  function InterruptRaised(isr: bv8): bv8 { isr | 1 }

  /** A tick: the pending request is transferred when it is due. */
  function TickEffect(m: Mem, d: Device): (Mem, Device)
    requires Due(d) ==> d.vq.num > 0 && InImage(d, RequestOf(m, d.vq))
  {
    if Due(d) then
      var (m', e) := Transfer(m, d.(isr := InterruptRaised(d.isr)));
      (m', Ticked(d).(isr := e.isr, id := e.id, image := e.image))
    else (m, Ticked(d))
  }

  /** The order in which a tick does its parts. */
  lemma TickIs(m: Mem, d: Device, raised: Device)
    requires raised == d.(isr := InterruptRaised(d.isr)) && (Due(d) ==> Servable(m, d))
    ensures TickEffect(m, d) ==
            if Due(d) then
              var (m', e) := Transfer(m, raised); (m', e.(queueNotify := NOTIFY_RESET, clock := (d.clock + 1) % TWO64))
            else (m, d.(clock := (d.clock + 1) % TWO64))
  {
    hide RequestOf, Completed, BytesFrom, WithBytes;
  }

  /** The interrupt bit does not matter to the hart. */
  lemma ServedAlike(s: State, d: Device, e: Device)
    requires e.vq == d.vq && e.id == d.id && e.image == d.image
    ensures Servable(s.mem, d) == Servable(s.mem, e)
    ensures Servable(s.mem, d) ==> ServedIn(s, d) == ServedIn(s, e)
  {
    hide RequestOf, RouteOf, RouteProbed, BufferProbed, BufferPut, CompletedIn;
  }

  /** The registers that the signals of a notification act on. */
  function NotifyRegisters(d: Device): (nat, nat, nat)
  {
    (d.queueNotify, d.notifyClock, d.clock)
  }

  /** A register store is a notification when it goes to queue_notify, and otherwise leaves the
      notification alone; a tick is a tick whether it serves a request or not. */
  lemma OnlyNotifyNotifies(d: Device, offset: nat, value: bv64)
    requires LaysOut(offset, value) ==> d.vq.align > 0
    ensures NotifyRegisters(RegisterStored(d, offset, value)) ==
            NotifyRegisters(if offset == 0x50 then Signalled(d, Notify(ToNat(value))) else d)
  {
    hide ToNat, Low32Of, Laid, LowByte, Not;
  }

  lemma TicksAreTicks(m: Mem, d: Device)
    requires Due(d) ==> d.vq.num > 0 && InImage(d, RequestOf(m, d.vq))
    ensures NotifyRegisters(TickEffect(m, d).1) == NotifyRegisters(Signalled(d, Signal.Tick))
  {
    hide RequestOf, Transfer, Due;
  }

  class VirtioBlkDevice {
    const rfsimg: array<bv8>
    var id: bv64
    var clock: nat
    var notifyClock: nat
    var queueNotify: nat
    var isr: bv8
    var status: bv8
    var vq: Virtq
    var guestPageSize: nat
    var queuePfn: nat

    constructor (data: seq<bv8>)
      ensures fresh(rfsimg) && rfsimg[..] == data
      ensures queueNotify == NOTIFY_RESET && clock == 0 && notifyClock == 0 && id == 0 && vq.align == 0x1000
    {
      rfsimg := new bv8[|data|](i requires 0 <= i < |data| => data[i]);
      id := 0;
      clock := 0;
      notifyClock := 0;
      queueNotify := NOTIFY_RESET;
      isr := 0;
      status := 0;
      vq := Virtq(0, 0x1000, 0, 0, 0);
      guestPageSize := 0;
      queuePfn := 0;
    }

    ghost function View(): Device
      reads this, rfsimg
    {
      Device(id, clock, notifyClock, queueNotify, isr, status, vq, guestPageSize, queuePfn, rfsimg[..])
    }

    ghost predicate Apart(cpu: Cpu)
    {
      cpu.Valid() && this as object !in cpu.Repr() && rfsimg as object !in cpu.Repr()
    }

    method Reset()
      modifies this`id, this`isr
      ensures View() == StatusReset(old(View()))
    {
      id := 0;
      isr := 0;
    }

    method Update()
      requires vq.align > 0
      modifies this`vq
      ensures View() == old(View()).(vq := Laid(old(View())))
    {
      var desc := Low32Of(queuePfn * guestPageSize);
      var avail := desc + vq.num * 16;
      vq := vq.(desc := desc, avail := avail, used := AlignUp(avail + 4 + vq.num * 2, vq.align));
    }

    method Store(offset: nat, value: bv64)
      requires LaysOut(offset, value) ==> vq.align > 0
      modifies this
      ensures View() == RegisterStored(old(View()), offset, value)
    {
      hide ToNat, Low32Of, Laid, LowByte, Not;
      match offset {
        case 0x28 => guestPageSize := Low32Of(ToNat(value));
        case 0x38 => vq := vq.(num := Low32Of(ToNat(value)));
        case 0x3c => vq := vq.(align := Low32Of(ToNat(value)));
        case 0x40 =>
          queuePfn := Low32Of(ToNat(value));
          Update();
        case 0x50 =>
          queueNotify := Low32Of(ToNat(value));
          notifyClock := clock;
        case 0x64 => isr := LowByte(Not(value));
        case 0x70 =>
          status := LowByte(value);
          if status == 0 {
            Reset();
          } else if status & 4 != 0 {
            Update();
          }
        case _ =>
      }
    }

    /** A load through the bus. */
    method Fetch(cpu: Cpu, a: nat, n: nat) returns (v: bv64)
      requires Apart(cpu) && n > 0
      modifies cpu`exc, cpu`excData
      ensures cpu.View() == Probed(old(cpu.View()), a) && v == Memory.Load(old(cpu.View()).mem, a, n)
    {
      hide Memory.Load, Cpu.View;
      ghost var m := cpu.View().mem;
      v := cpu.BusLoad(a, n);
      if !InRam(m, a) {
        LoadOutside(m, a, n);
      }
    }

    /** A store through the bus. */
    method Send(cpu: Cpu, a: nat, n: nat, v: bv64)
      requires Apart(cpu) && n > 0
      modifies cpu`exc, cpu`excData, cpu.ram.data
      ensures cpu.View() == Put(old(cpu.View()), a, n, v)
    {
      hide Memory.Store, Cpu.View;
      ghost var m := cpu.View().mem;
      cpu.BusStore(a, n, v);
      if !InRam(m, a) {
        StoreOutside(m, a, n, v);
      }
    }

    method LoadDescriptor(cpu: Cpu, address: nat) returns (d: Desc)
      requires Apart(cpu)
      modifies cpu`exc, cpu`excData
      ensures cpu.View() == DescProbed(old(cpu.View()), address) && d == LoadDesc(old(cpu.View()).mem, address)
    {
      hide Memory.Load, ToNat, At, Probed;
      var addr := Fetch(cpu, address, 8);
      var len := Fetch(cpu, At(address, 8), 4);
      var flags := Fetch(cpu, At(address, 12), 2);
      var next := Fetch(cpu, At(address, 14), 2);
      d := Desc(ToNat(addr), ToNat(len), ToNat(next));
    }

    /** The loop of a write request: from memory to the image. */
    method CopyIn(cpu: Cpu, first: nat, buffer: nat, len: nat)
      requires Apart(cpu) && first + len <= rfsimg.Length
      modifies cpu`exc, cpu`excData, rfsimg
      ensures cpu.View() == BufferProbed(old(cpu.View()), buffer, len)
      ensures var image := old(rfsimg[..]);
              rfsimg[..] == image[..first] + BytesFrom(old(cpu.View()).mem, buffer, len) + image[first + len..]
    {
      hide Memory.Load, At, LowByte, Cpu.View, Probed;
      ghost var s := cpu.View();
      for i := 0 to len
        invariant cpu.View() == BufferProbed(s, buffer, i) && cpu.View().mem == s.mem
        invariant forall k | 0 <= k < rfsimg.Length ::
                    rfsimg[k] == if first <= k < first + i then ByteAt(s.mem, At(buffer, k - first)) else old(rfsimg[k])
      {
        var v := Fetch(cpu, At(buffer, i), 1);
        rfsimg[first + i] := LowByte(v);
      }
    }

    /** The loop of a read request: from the image to memory. */
    method CopyOut(cpu: Cpu, first: nat, buffer: nat, len: nat)
      requires Apart(cpu) && first + len <= rfsimg.Length
      modifies cpu`exc, cpu`excData, cpu.ram.data
      ensures cpu.View() == BufferPut(old(cpu.View()), buffer, rfsimg[first..first + len], len)
    {
      hide Memory.Store, At, Cpu.View, Put;
      ghost var s := cpu.View();
      ghost var b := rfsimg[first..first + len];
      for i := 0 to len
        invariant cpu.View() == BufferPut(s, buffer, b, i)
      {
        Send(cpu, At(buffer, i), 1, rfsimg[first + i] as bv64);
      }
    }

    /** The stores that end a request. */
    method Complete(cpu: Cpu, ghost r: Request, status: nat, slot: bv64)
      requires Apart(cpu) && vq.num > 0 && r.status == status && r.slot == slot
      modifies this`id, cpu`exc, cpu`excData, cpu.ram.data
      ensures var d := old(View());
              cpu.View() == CompletedIn(old(cpu.View()), d.vq, d.id, r) && View() == d.(id := Next(d.id))
    {
      hide Memory.Store, At, ToNat, Next, Cpu.View, Put;
      Send(cpu, status, 1, 0);
      Send(cpu, At(vq.used, 4 + ToNat(id) % vq.num * 8), 2, slot);
      id := Next(id);
      Send(cpu, At(vq.used, 2), 2, id);
    }

    /** The first half of access_disk: follow the rings to the request. */
    method ReadRequest(cpu: Cpu) returns (r: Request)
      requires Apart(cpu) && vq.num > 0
      modifies cpu`exc, cpu`excData
      ensures var s := old(cpu.View());
              cpu.View() == RouteProbed(s, RouteOf(s.mem, vq)) && r == RequestOf(s.mem, vq)
    {
      hide Memory.Load, At, ToNat, InRam, LoadDesc, Cpu.View, Probed, DescProbed;
      ghost var s := cpu.View();
      var idx := Fetch(cpu, At(vq.avail, 2), 2);
      var slot := Fetch(cpu, At(vq.avail, 4 + ToNat(idx) % vq.num * 2), 2);
      var desc0 := LoadDescriptor(cpu, At(vq.desc, 16 * ToNat(slot)));
      var desc1 := LoadDescriptor(cpu, At(vq.desc, 16 * desc0.next));
      var desc2 := LoadDescriptor(cpu, At(vq.desc, 16 * desc1.next));
      var kind := Fetch(cpu, desc0.addr, 4);
      var sector := Fetch(cpu, At(desc0.addr, 8), 8);
      r := Request(slot, kind == T_OUT, ToNat(sector) * SECTOR % TWO64, desc1.addr, desc1.len, desc2.addr);
    }

    /** access_disk. */
    method AccessDisk(cpu: Cpu)
      requires Apart(cpu) && Servable(cpu.View().mem, View())
      modifies this`id, rfsimg, cpu`exc, cpu`excData, cpu.ram.data
      ensures var s, d := old(cpu.View()), old(View());
              cpu.View() == ServedIn(s, d) && View() == Transfer(s.mem, d).1
    {
      hide RequestOf, RouteOf, RouteProbed, BufferProbed, BufferPut, CompletedIn, Completed, BytesFrom,
        WithBytes, Cpu.View;
      ghost var s, d := cpu.View(), View();
      var r := ReadRequest(cpu);
      RouteFollows(s, RouteOf(s.mem, vq));
      if r.out {
        CopyIn(cpu, r.first, r.buffer, r.len);
      } else {
        assert d.image[r.first..r.first + r.len] == rfsimg[r.first..r.first + r.len];
        CopyOut(cpu, r.first, r.buffer, r.len);
      }
      Complete(cpu, r, r.status, r.slot);
    }

    /** A due tick up to the clock. */
    method Serve(cpu: Cpu)
      requires Apart(cpu) && Servable(cpu.View().mem, View())
      modifies this`isr, this`id, this`queueNotify, rfsimg, cpu`exc, cpu`excData, cpu.ram.data
      ensures var s, d := old(cpu.View()), old(View());
              && cpu.View() == ServedIn(s, d)
              && View() == Transfer(s.mem, d.(isr := InterruptRaised(d.isr))).1.(queueNotify := NOTIFY_RESET)
    {
      hide RequestOf, Transfer, Servable, ServedIn, Cpu.View, InterruptRaised;
      ghost var s, d := cpu.View(), View();
      ServedAlike(s, d, d.(isr := InterruptRaised(d.isr)));
      isr := InterruptRaised(isr);
      assert View() == d.(isr := InterruptRaised(d.isr)) && cpu.View() == s;
      AccessDisk(cpu);
      queueNotify := NOTIFY_RESET;
    }

    method Tick(cpu: Cpu)
      requires Apart(cpu) && (Due(View()) ==> Servable(cpu.View().mem, View()))
      modifies this, rfsimg, cpu`exc, cpu`excData, cpu.ram.data
      ensures var s, d := old(cpu.View()), old(View());
              cpu.View() == TickedIn(s, d) && View() == TickEffect(s.mem, d).1
    {
      hide RequestOf, Transfer, InImage, Servable, ServedIn, Cpu.View, TickEffect;
      TickIs(cpu.View().mem, View(), View().(isr := InterruptRaised(isr)));
      if queueNotify != NOTIFY_RESET && clock == (notifyClock + DISK_DELAY) % TWO64 {
        Serve(cpu);
      }
      clock := (clock + 1) % TWO64;
    }
  }
}
