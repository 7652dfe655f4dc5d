/** The block device over whole histories: its image is what the write requests served so far have made
    of it, and a read request gets the bytes written last. */
module DiskHistory {
  import opened Memory
  import opened Bits
  import opened PageTable
  import opened MulDiv
  import opened PageArithmetic
  import opened Numbers
  import opened Isa
  import opened Virtio
  import opened BlockDevice

  /** What happens to the device and the memory it shares: a store to a register, a tick, or anything
      that the hart or another device does to memory. */
  datatype Event = Register(offset: nat, value: bv64) | Ticks | Rewrite(m: Mem)

  datatype World = World(mem: Mem, dev: Device)

  /** Whether the source defines what happens. */
  predicate Defined(w: World, e: Event)
  {
    match e
    case Register(offset, value) => LaysOut(offset, value) ==> w.dev.vq.align > 0
    case Ticks => Due(w.dev) ==> Servable(w.mem, w.dev)
    case Rewrite(_) => true
  }

  function Happens(w: World, e: Event): World
    requires Defined(w, e)
  {
    match e
    case Register(offset, value) => w.(dev := RegisterStored(w.dev, offset, value))
    case Ticks => var (m, d) := TickEffect(w.mem, w.dev); World(m, d)
    case Rewrite(m) => w.(mem := m)
  }

  predicate AllDefined(w: World, es: seq<Event>)
    decreases |es|, 0
  {
    es == [] || (AllDefined(w, es[..|es| - 1]) && Defined(After(w, es[..|es| - 1]), es[|es| - 1]))
  }

  /** The world after a history, oldest event first. */
  function After(w: World, es: seq<Event>): World
    requires AllDefined(w, es)
    decreases |es|, 1
  {
    if es == [] then w else Happens(After(w, es[..|es| - 1]), es[|es| - 1])
  }

  // ---- The requests of a history ------------------------------------------------------------------------

  /** A request as it was served: the bytes of the image that it went to, or that it read. */
  datatype Served = Served(out: bool, first: nat, data: seq<bv8>)

  function ServedAt(m: Mem, d: Device): Served
    requires Servable(m, d)
  {
    var r := RequestOf(m, d.vq);
    Served(r.out, r.first, if r.out then BytesFrom(m, r.buffer, r.len) else d.image[r.first..r.first + r.len])
  }

  /** What an event serves. */
  function Serves(w: World, e: Event): seq<Served>
    requires Defined(w, e)
  {
    if e.Ticks? && Due(w.dev) then [ServedAt(w.mem, w.dev)] else []
  }

  /** The requests served in a history, oldest first. */
  function Requests(w: World, es: seq<Event>): seq<Served>
    requires AllDefined(w, es)
    decreases |es|
  {
    if es == [] then []
    else
      var p := es[..|es| - 1];
      Requests(w, p) + Serves(After(w, p), es[|es| - 1])
  }

  /** The byte at `k` that the last of the write requests left, or the one that was there before. */
  function LastWritten(rs: seq<Served>, k: nat, before: bv8): bv8
    decreases |rs|
  {
    if rs == [] then before
    else
      var r := rs[|rs| - 1];
      if r.out && r.first <= k < r.first + |r.data| then r.data[k - r.first]
      else LastWritten(rs[..|rs| - 1], k, before)
  }

  // ---- The image -----------------------------------------------------------------------------------------

  /** `image` is what the requests made of `start`. */
  ghost predicate MadeOf(image: seq<bv8>, start: seq<bv8>, rs: seq<Served>)
  {
    |image| == |start| && forall k | 0 <= k < |image| :: image[k] == LastWritten(rs, k, start[k])
  }

  /** A served write puts its bytes in the image, nothing else changes it. */
  lemma TickWrites(m: Mem, d: Device)
    requires Due(d) && Servable(m, d)
    ensures var r, image := ServedAt(m, d), TickEffect(m, d).1.image;
            && |image| == |d.image|
            && (forall k | 0 <= k < |image| ::
                  image[k] == if r.out && r.first <= k < r.first + |r.data| then r.data[k - r.first] else d.image[k])
  {
    hide RequestOf, BytesFrom, Completed, WithBytes, InterruptRaised, Due;
  }

  lemma QuietTick(m: Mem, d: Device)
    requires !Due(d)
    ensures TickEffect(m, d).1.image == d.image && TickEffect(m, d).1.id == d.id
  {
    hide Due;
  }

  lemma RegisterKeepsImage(d: Device, offset: nat, value: bv64)
    requires LaysOut(offset, value) ==> d.vq.align > 0
    ensures RegisterStored(d, offset, value).image == d.image
  {
    hide ToNat, Low32Of, Laid, LowByte, Not;
  }

  lemma NextMade(image: seq<bv8>, start: seq<bv8>, rs: seq<Served>, r: Served, image': seq<bv8>)
    requires MadeOf(image, start, rs) && |image'| == |image|
    requires forall k | 0 <= k < |image'| ::
               image'[k] == if r.out && r.first <= k < r.first + |r.data| then r.data[k - r.first] else image[k]
    ensures MadeOf(image', start, rs + [r])
  {
    assert (rs + [r])[..|rs|] == rs;
  }

  lemma TickServable(w: World)
    requires Defined(w, Ticks)
    ensures Due(w.dev) ==> w.dev.vq.num > 0 && InImage(w.dev, RequestOf(w.mem, w.dev.vq))
  {
    hide Due, RequestOf;
  }

  lemma EventKeepsMade(w: World, e: Event, start: seq<bv8>, rs: seq<Served>)
    requires Defined(w, e) && MadeOf(w.dev.image, start, rs)
    ensures MadeOf(Happens(w, e).dev.image, start, rs + Serves(w, e))
  {
    hide Due, Servable, TickEffect, RegisterStored, ServedAt, MadeOf, RequestOf, InImage, LastWritten;
    assert rs + [] == rs;
    match e
    case Register(offset, value) => RegisterKeepsImage(w.dev, offset, value);
    case Ticks =>
      TickServable(w);
      if Due(w.dev) {
        TickWrites(w.mem, w.dev);
        NextMade(w.dev.image, start, rs, ServedAt(w.mem, w.dev), TickEffect(w.mem, w.dev).1.image);
      } else {
        QuietTick(w.mem, w.dev);
      }
    case Rewrite(_) =>
  }

  /** After every history each byte of the image is that of the last write request served to it, or the
      one it started with. */
  lemma {:induction false} ImageIsLastWritten(w: World, es: seq<Event>)
    requires AllDefined(w, es)
    ensures MadeOf(After(w, es).dev.image, w.dev.image, Requests(w, es))
    decreases |es|
  {
    hide Defined, Happens, Serves, LastWritten;
    if es == [] {
      NothingWritten(w.dev.image);
    } else {
      var p, e := es[..|es| - 1], es[|es| - 1];
      ImageIsLastWritten(w, p);
      EventKeepsMade(After(w, p), e, w.dev.image, Requests(w, p));
    }
  }

  lemma NothingWritten(image: seq<bv8>)
    ensures MadeOf(image, image, [])
  {}

  /** A read request served after any history leaves in its buffer, for every byte it asks for, the one
      that the last write request before it put there. */
  lemma ReadsLastWritten(w: World, es: seq<Event>, i: nat)
    requires AllDefined(w, es) && Defined(After(w, es), Ticks) && Due(After(w, es).dev)
    requires var v := After(w, es);
             var r := RequestOf(v.mem, v.dev.vq);
             !r.out && i < r.len && InMemory(v.mem, r.buffer, r.len) && BufferApart(v.dev, r)
    ensures var v := After(w, es);
            var r := RequestOf(v.mem, v.dev.vq);
            && r.first + r.len <= |w.dev.image|
            && BytesFrom(Happens(v, Ticks).mem, r.buffer, r.len)[i] ==
               LastWritten(Requests(w, es), r.first + i, w.dev.image[r.first + i])
  {
    hide Due, RequestOf, BufferApart, InMemory, LastWritten, BytesFrom, Requests, After, AllDefined, Completed,
      WithBytes, InterruptRaised;
    var v := After(w, es);
    ImageIsLastWritten(w, es);
    ReadRequest(v.mem, v.dev);
    TickMemory(v.mem, v.dev);
  }

  lemma TickMemory(m: Mem, d: Device)
    requires Due(d) && Servable(m, d)
    ensures TickEffect(m, d).0 == Transfer(m, d).0 && TickEffect(m, d).1.id == Transfer(m, d).1.id
  {
    hide Due, RequestOf, BytesFrom, Completed, WithBytes, InterruptRaised;
  }

  // ---- When a request is served ----------------------------------------------------------------------------

  /** The signals that a history sends to the notification registers. */
  function Signals(es: seq<Event>): seq<Signal>
    decreases |es|
  {
    if es == [] then []
    else Signals(es[..|es| - 1]) + SignalOf(es[|es| - 1])
  }

  function SignalOf(e: Event): seq<Signal>
  {
    match e
    case Register(offset, value) => if offset == 0x50 then [Notify(ToNat(value))] else []
    case Ticks => [Signal.Tick]
    case Rewrite(_) => []
  }

  /** Signals act on the notification registers alone. */
  lemma SignalledAlike(d: Device, e: Device, x: Signal)
    requires NotifyRegisters(d) == NotifyRegisters(e)
    ensures NotifyRegisters(Signalled(d, x)) == NotifyRegisters(Signalled(e, x)) && Due(d) == Due(e)
  {
    hide Low32Of;
  }

  lemma AfterSignal(d: Device, h: seq<Signal>, x: Signal)
    ensures AfterSignals(d, h + [x]) == Signalled(AfterSignals(d, h), x)
  {
    hide Signalled;
    assert (h + [x])[..|h|] == h;
  }

  lemma EventSignals(w: World, e: Event, d: Device, h: seq<Signal>)
    requires Defined(w, e) && NotifyRegisters(w.dev) == NotifyRegisters(AfterSignals(d, h))
    ensures NotifyRegisters(Happens(w, e).dev) == NotifyRegisters(AfterSignals(d, h + SignalOf(e)))
  {
    hide Due, Servable, TickEffect, RegisterStored, NotifyRegisters, Signalled, AfterSignals, ToNat;
    assert h + [] == h;
    match e
    case Register(offset, value) =>
      OnlyNotifyNotifies(w.dev, offset, value);
      SignalledAlike(w.dev, AfterSignals(d, h), Notify(ToNat(value)));
      AfterSignal(d, h, Notify(ToNat(value)));
    case Ticks =>
      assert Due(w.dev) ==> w.dev.vq.num > 0 && InImage(w.dev, RequestOf(w.mem, w.dev.vq)) by { TickServable(w); }
      TicksAreTicks(w.mem, w.dev);
      SignalledAlike(w.dev, AfterSignals(d, h), Signal.Tick);
      AfterSignal(d, h, Signal.Tick);
    case Rewrite(_) =>
  }

  lemma {:induction false} FollowsSignals(w: World, es: seq<Event>)
    requires AllDefined(w, es)
    ensures NotifyRegisters(After(w, es).dev) == NotifyRegisters(AfterSignals(w.dev, Signals(es)))
    decreases |es|
  {
    hide Defined, Happens, NotifyRegisters, SignalOf;
    if es != [] {
      var p, e := es[..|es| - 1], es[|es| - 1];
      FollowsSignals(w, p);
      EventSignals(After(w, p), e, w.dev, Signals(p));
    }
  }

  /** After every history a tick serves a request if and only if it is the 501st after a notification
      that is not the reset marker and was not superseded. */
  lemma TickServes(w: World, es: seq<Event>)
    requires w.dev.queueNotify == NOTIFY_RESET && w.dev.clock < TWO64 && w.dev.notifyClock < TWO64
    requires AllDefined(w, es) && Defined(After(w, es), Ticks)
    ensures Serves(After(w, es), Ticks) != [] <==> Pending(Signals(es), DISK_DELAY)
  {
    hide Due, Servable, ServedAt, After, AllDefined, Signals, Pending, NotifyRegisters, AfterSignals;
    FollowsSignals(w, es);
    SignalledAlike(After(w, es).dev, AfterSignals(w.dev, Signals(es)), Signal.Tick);
    ServedOnTick501(w.dev, Signals(es));
  }

  // ---- The used index ----------------------------------------------------------------------------------------

  /** A store that resets the device. */
  predicate Resets(e: Event)
  {
    e.Register? && e.offset == 0x70 && LowByte(e.value) == 0
  }

  /** The number of requests served since the last reset, or on top of `from` without one. */
  function Count(w: World, es: seq<Event>, from: nat): nat
    requires AllDefined(w, es)
    decreases |es|
  {
    if es == [] then from
    else
      var p, e := es[..|es| - 1], es[|es| - 1];
      if Resets(e) then 0 else Count(w, p, from) + |Serves(After(w, p), e)|
  }

  lemma NextId(id: bv64)
    ensures ToNat(Next(id)) == (ToNat(id) + 1) % 0x1_0000
  {
    hide Next, And, Ones, Add, Pow2, ToNat;
    NextNamed(id);
    AddOne(id);
    Sixteen();
    LowBits(Add(id, 1), 16);
    LowSixteen(ToNat(id) + 1);
  }

  lemma LowSixteen(x: nat)
    ensures x % TWO64 % 0x1_0000 == x % 0x1_0000
  {
    Shifted(x % TWO64, x, -(x / TWO64 * 0x1_0000_0000_0000), 0x1_0000);
  }

  lemma NextNamed(id: bv64)
    ensures Next(id) == And(Add(id, 1), Ones(16))
  {}

  lemma Sixteen()
    ensures ToNat(16) == 16 && Pow2(16) == 0x1_0000
  {
    assert Pow2(8) == 256;
  }

  lemma RegisterId(d: Device, offset: nat, value: bv64)
    requires LaysOut(offset, value) ==> d.vq.align > 0
    ensures RegisterStored(d, offset, value).id == if offset == 0x70 && LowByte(value) == 0 then 0 else d.id
  {
    hide ToNat, Low32Of, Laid, LowByte, Not;
  }

  lemma TickId(m: Mem, d: Device)
    requires Due(d) && Servable(m, d)
    ensures TickEffect(m, d).1.id == Next(d.id)
  {
    hide Due, RequestOf, BytesFrom, Completed, WithBytes, InterruptRaised, Next;
  }

  lemma NextCount(n: nat)
    ensures (n % 0x1_0000 + 1) % 0x1_0000 == (n + 1) % 0x1_0000
  {}

  lemma EventCounts(w: World, e: Event, n: nat)
    requires Defined(w, e) && ToNat(w.dev.id) == n % 0x1_0000
    ensures ToNat(Happens(w, e).dev.id) == (if Resets(e) then 0 else n + |Serves(w, e)|) % 0x1_0000
  {
    hide Due, Servable, TickEffect, RegisterStored, ServedAt, ToNat, Next, LowByte;
    assert ToNat(0) == 0 by { Zero(); }
    match e
    case Register(offset, value) => RegisterId(w.dev, offset, value);
    case Ticks =>
      if Due(w.dev) {
        TickId(w.mem, w.dev);
        NextId(w.dev.id);
        NextCount(n);
      } else {
        QuietTick(w.mem, w.dev);
      }
    case Rewrite(_) =>
  }

  /** After every history the device's index is the number of requests served since the last reset,
      modulo 2^16. */
  lemma {:induction false} IdCounts(w: World, es: seq<Event>)
    requires AllDefined(w, es) && ToNat(w.dev.id) < 0x1_0000
    ensures ToNat(After(w, es).dev.id) == Count(w, es, ToNat(w.dev.id)) % 0x1_0000
    decreases |es|
  {
    hide ToNat, Defined, Happens, Serves, Resets;
    if es != [] {
      var p, e := es[..|es| - 1], es[|es| - 1];
      IdCounts(w, p);
      EventCounts(After(w, p), e, Count(w, p, ToNat(w.dev.id)));
    }
  }

  /** A request served after any history leaves that number, itself included, in the used index in
      memory, whatever the memory held there. */
  lemma UsedIndexCounts(w: World, es: seq<Event>)
    requires AllDefined(w, es) && ToNat(w.dev.id) < 0x1_0000
    requires Defined(After(w, es), Ticks) && Due(After(w, es).dev)
    requires var v := After(w, es); InMemory(v.mem, At(v.dev.vq.used, 2), 2)
    ensures var v := After(w, es);
            ToNat(Memory.Load(Happens(v, Ticks).mem, At(v.dev.vq.used, 2), 2)) ==
            (Count(w, es, ToNat(w.dev.id)) + 1) % 0x1_0000
  {
    hide ToNat, Due, RequestOf, InMemory, After, AllDefined, Count, TickEffect, Transfer, Memory.Load, At, Next;
    var v := After(w, es);
    IdCounts(w, es);
    UsedIndexAdvances(v.mem, v.dev);
    TickMemory(v.mem, v.dev);
    NextId(v.dev.id);
    NextCount(Count(w, es, ToNat(w.dev.id)));
  }
}
