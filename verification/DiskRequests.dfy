/** What the block device does for a driver: a request that memory holds is carried out on the tick that
    is due, and the registers lay out the queue. */
module DiskRequests {
  import opened Bits
  import opened Memory
  import opened PageTable
  import opened MulDiv
  import opened Ordering
  import opened LittleEndian
  import opened Virtio
  import opened BlockDevice
  import Hart
  import opened DiskHistory

  /** Addresses are 64 bits wide. */
  function Wide(a: nat): nat { a % 0x1_0000_0000_0000_0000 }

  /** A request as a driver posts it: the index of the available ring and the descriptor it names, the
      address of the header, the two descriptors that follow by their numbers, what the header says, the
      buffer, and the address of the status byte. */
  datatype Chain = Chain(
    idx: nat, head: nat, header: nat, second: nat, third: nat,
    kind: nat, sector: nat, buffer: nat, len: nat, status: nat)

  /** The available ring: its index at 2, its entries of two bytes from 4 on. */
  predicate Announced(m: Mem, q: Virtq, c: Chain)
    requires q.num > 0
  {
    && NumberAt(m, Wide(q.avail + 2), 2) == c.idx
    && NumberAt(m, Wide(q.avail + 4 + c.idx % q.num * 2), 2) == c.head
  }

  /** Descriptors of 16 bytes: the address at 0, the length at 8, the number of the next one at 14. */
  predicate Described(m: Mem, q: Virtq, i: nat, addr: nat, len: nat, next: nat)
  {
    && NumberAt(m, Wide(q.desc + 16 * i), 8) == addr
    && NumberAt(m, Wide(q.desc + 16 * i + 8), 4) == len
    && NumberAt(m, Wide(q.desc + 16 * i + 14), 2) == next
  }

  /** The header: the type at 0, the sector at 8. */
  predicate Headed(m: Mem, c: Chain)
  {
    NumberAt(m, c.header, 4) == c.kind && NumberAt(m, Wide(c.header + 8), 8) == c.sector
  }

  ghost predicate Posted(m: Mem, q: Virtq, c: Chain)
    requires q.num > 0
  {
    && Announced(m, q, c) && Headed(m, c)
    && (exists l :: Described(m, q, c.head, c.header, l, c.second))
    && Described(m, q, c.second, c.buffer, c.len, c.third)
    && (exists l, n :: Described(m, q, c.third, c.status, l, n))
  }

  /** Where the image holds the first byte of a request: sectors have 512 bytes. */
  function FirstByte(c: Chain): nat { Wide(c.sector * 512) }

  lemma WideAt(a: nat, b: nat, c: nat)
    ensures At(a, b) == Wide(a + b) && At(At(a, b), c) == Wide(a + b + c)
  {
    ModSum(a + b, c);
  }

  lemma ModSum(x: nat, c: nat)
    ensures (x % TWO64 + c) % TWO64 == (x + c) % TWO64
  {
    Shifted(x % TWO64 + c, x + c, -(x / TWO64), TWO64);
  }

  lemma DescriptorMeans(m: Mem, q: Virtq, i: nat, addr: nat, len: nat, next: nat)
    requires Described(m, q, i, addr, len, next)
    ensures LoadDesc(m, At(q.desc, 16 * i)) == Desc(addr, len, next)
  {
    hide ToNat, Load, NumberAt, At, Wide;
    var a := At(q.desc, 16 * i);
    WideAt(q.desc, 16 * i, 8);
    WideAt(q.desc, 16 * i, 14);
    LoadsNumber(m, a, 8);
    LoadsNumber(m, At(a, 8), 4);
    LoadsNumber(m, At(a, 14), 2);
  }

  lemma One()
    ensures ToNat(T_OUT) == 1 && SECTOR == 512
  {}

  lemma KindMeans(v: bv64)
    ensures v == T_OUT <==> ToNat(v) == 1
  {
    hide ToNat, Isa.Below;
    One();
    BelowMeans(v, T_OUT);
  }

  /** The device reads the request that was posted; type 1 writes to the disk. */
  lemma RequestMeans(m: Mem, q: Virtq, c: Chain)
    requires q.num > 0 && Posted(m, q, c)
    ensures var r := RequestOf(m, q);
            && ToNat(r.slot) == c.head && r.out == (c.kind == 1) && r.first == FirstByte(c)
            && r.buffer == c.buffer && r.len == c.len && r.status == c.status
  {
    hide ToNat, Load, NumberAt, LoadDesc, Described, At, Wide;
    var l0 :| Described(m, q, c.head, c.header, l0, c.second);
    var l2, n2 :| Described(m, q, c.third, c.status, l2, n2);
    DescriptorMeans(m, q, c.head, c.header, l0, c.second);
    DescriptorMeans(m, q, c.second, c.buffer, c.len, c.third);
    DescriptorMeans(m, q, c.third, c.status, l2, n2);
    AnnouncedMeans(m, q, c);
    HeadedMeans(m, c);
  }

  lemma AnnouncedMeans(m: Mem, q: Virtq, c: Chain)
    requires q.num > 0 && Announced(m, q, c)
    ensures var idx := Load(m, At(q.avail, 2), 2);
            ToNat(Load(m, At(q.avail, 4 + ToNat(idx) % q.num * 2), 2)) == c.head
  {
    hide ToNat, Load, NumberAt, At, Wide;
    WideAt(q.avail, 2, 0);
    WideAt(q.avail, 4 + c.idx % q.num * 2, 0);
    LoadsNumber(m, At(q.avail, 2), 2);
    LoadsNumber(m, At(q.avail, 4 + c.idx % q.num * 2), 2);
  }

  lemma HeadedMeans(m: Mem, c: Chain)
    requires Headed(m, c)
    ensures Load(m, c.header, 4) == T_OUT <==> c.kind == 1
    ensures ToNat(Load(m, At(c.header, 8), 8)) * SECTOR % TWO64 == FirstByte(c)
  {
    hide ToNat, Load, NumberAt, At;
    WideAt(c.header, 8, 0);
    LoadsNumber(m, c.header, 4);
    LoadsNumber(m, At(c.header, 8), 8);
    KindMeans(Load(m, c.header, 4));
    One();
  }

  // ---- Bytes -----------------------------------------------------------------------------------------------

  lemma {:induction false} OneByte(b: bv8)
    ensures NumberOf([b]) == b as nat
  {
    assert [b][1..] == [];
  }

  lemma ByteNumberAt(m: Mem, a: nat)
    ensures ByteAt(m, a) as nat == NumberAt(m, a, 1)
  {
    hide ToNat, Load, LowByte, HighBytes, NumberAt;
    LoadsNumber(m, a, 1);
    ByteParts(Load(m, a, 1));
    NumberAtBelow(m, a, 1);
    Scales();
  }

  lemma NumberAtBelow(m: Mem, a: nat, n: nat)
    ensures NumberAt(m, a, n) < Scale(n)
  {
    hide NumberOf, Scale;
    if AllInRam(m, a, n) {
      NumberBelow(BytesAt(m, a, n));
    }
  }

  // ---- The due tick ------------------------------------------------------------------------------------------

  /** A notification is pending and 500 ticks old. */
  predicate Waited(d: Device)
  {
    d.queueNotify != 0xffff_ffff && d.clock == (d.notifyClock + 500) % 0x1_0000_0000_0000_0000
  }

  lemma WaitedIsDue(d: Device)
    ensures Due(d) <==> Waited(d)
  {}

  /** The image holds the sectors of the request. */
  predicate OnDisk(d: Device, c: Chain)
  {
    FirstByte(c) + c.len <= |d.image|
  }

  lemma PostedServable(m: Mem, d: Device, c: Chain)
    requires d.vq.num > 0 && Posted(m, d.vq, c) && OnDisk(d, c)
    ensures Servable(m, d)
  {
    hide RequestOf, Posted, FirstByte;
    RequestMeans(m, d.vq, c);
  }

  /** A request of type 1 puts the bytes of its buffer in the image from its sector on, and changes no other
      byte of the image. */
  lemma WriteIsDone(m: Mem, d: Device, c: Chain, k: nat)
    requires d.vq.num > 0 && Posted(m, d.vq, c) && OnDisk(d, c) && Waited(d) && c.kind == 1 && k < |d.image|
    ensures Due(d) && Servable(m, d)
    ensures var image, first := TickEffect(m, d).1.image, FirstByte(c);
            && |image| == |d.image|
            && image[k] as nat == if first <= k < first + c.len then NumberAt(m, Wide(c.buffer + (k - first)), 1)
                                  else d.image[k] as nat
  {
    hide RequestOf, Posted, Due, Waited, Completed, NumberAt, At, Wide, ByteAt, ToNat, Servable, TickEffect, FirstByte;
    RequestMeans(m, d.vq, c);
    PostedServable(m, d, c);
    WaitedIsDue(d);
    TickWrites(m, d);
    ServedIs(m, d, c);
    var first := FirstByte(c);
    if first <= k < first + c.len {
      WideAt(c.buffer, k - first, 0);
      ByteNumberAt(m, At(c.buffer, k - first));
    }
  }

  lemma ServedIs(m: Mem, d: Device, c: Chain)
    requires d.vq.num > 0 && Posted(m, d.vq, c) && OnDisk(d, c) && Servable(m, d)
    ensures var r, first := ServedAt(m, d), FirstByte(c);
            && r.out == (c.kind == 1) && r.first == first
            && r.data == if c.kind == 1 then BytesFrom(m, c.buffer, c.len) else d.image[first..first + c.len]
  {
    hide RequestOf, Posted, FirstByte, BytesFrom;
    RequestMeans(m, d.vq, c);
  }

  /** The buffer lies in memory, apart from the status byte and from what is written to the used ring. */
  predicate BufferFree(m: Mem, d: Device, c: Chain)
    requires d.vq.num > 0
  {
    && InMemory(m, c.buffer, c.len) && Apart(c.buffer, c.len, c.status, 1)
    && Apart(c.buffer, c.len, Wide(d.vq.used + 4 + ToNat(d.id) % d.vq.num * 8), 2)
    && Apart(c.buffer, c.len, Wide(d.vq.used + 2), 2)
  }

  /** A request of any other type leaves the image as it is, and its bytes from the sector on are in the
      buffer. */
  lemma ReadIsDone(m: Mem, d: Device, c: Chain, i: nat)
    requires d.vq.num > 0 && Posted(m, d.vq, c) && OnDisk(d, c) && Waited(d) && c.kind != 1
    requires BufferFree(m, d, c) && i < c.len
    ensures Due(d) && Servable(m, d)
    ensures var (m', d') := TickEffect(m, d);
            d'.image == d.image && NumberAt(m', c.buffer + i, 1) == d.image[FirstByte(c) + i] as nat
  {
    hide RequestOf, Posted, Due, Waited, Completed, NumberAt, At, Wide, ByteAt, ToNat, Servable, TickEffect, FirstByte,
      InMemory, Transfer;
    RequestMeans(m, d.vq, c);
    PostedServable(m, d, c);
    WaitedIsDue(d);
    WideAt(d.vq.used, 4 + ToNat(d.id) % d.vq.num * 8, 0);
    WideAt(d.vq.used, 2, 0);
    ReadParts(m, d);
    TickMemory(m, d);
    ImageKept(m, d, c);
    ReadRequest(m, d);
    AtInMemory(m, c.buffer, c.len, i);
    var m' := TickEffect(m, d).0;
    assert BytesFrom(m', c.buffer, c.len)[i] == d.image[FirstByte(c)..FirstByte(c) + c.len][i];
    ByteNumberAt(m', c.buffer + i);
  }

  lemma ReadParts(m: Mem, d: Device)
    requires Servable(m, d)
    ensures d.vq.num > 0 && InImage(d, RequestOf(m, d.vq))
  {
    hide RequestOf;
  }

  lemma ImageKept(m: Mem, d: Device, c: Chain)
    requires d.vq.num > 0 && Posted(m, d.vq, c) && OnDisk(d, c) && Due(d) && Servable(m, d) && c.kind != 1
    ensures TickEffect(m, d).1.image == d.image
  {
    hide RequestOf, Posted, Due, TickEffect, Servable, FirstByte;
    TickWrites(m, d);
    ServedIs(m, d, c);
  }

  // ---- The end of a request ----------------------------------------------------------------------------------

  /** What was stored reads back, cut to its width. */
  lemma NumberStored(m: Mem, a: nat, n: nat, v: bv64)
    requires AllInRam(m, a, n)
    ensures NumberAt(Store(m, a, n, v), a, n) == ToNat(v) % Scale(n)
  {
    hide ToNat, NumberOf, Scale, Store;
    LittleEndian.StoreMeans(m, a, n, v);
  }

  lemma NumberElsewhere(m: Mem, a: nat, n: nat, v: bv64, b: nat, l: nat)
    requires l <= 8 && Virtio.Apart(b, l, a, n)
    ensures NumberAt(Store(m, a, n, v), b, l) == NumberAt(m, b, l)
  {
    hide ToNat, NumberAt, Load, Store;
    LoadElsewhere(m, a, n, v, b, l);
    LoadsNumber(m, b, l);
    LoadsNumber(Store(m, a, n, v), b, l);
  }

  /** Where the used ring gets its next entry, of eight bytes from 4 on, and its index, at 2. */
  function UsedSlot(d: Device): nat
    requires d.vq.num > 0
  {
    Wide(d.vq.used + 4 + ToNat(d.id) % d.vq.num * 8)
  }

  function UsedIndex(d: Device): nat { Wide(d.vq.used + 2) }

  /** These and the status byte are in memory and apart from each other. */
  predicate EndFree(m: Mem, d: Device, c: Chain)
    requires d.vq.num > 0
  {
    && AllInRam(m, c.status, 1) && AllInRam(m, UsedSlot(d), 2) && AllInRam(m, UsedIndex(d), 2)
    && Apart(c.status, 1, UsedSlot(d), 2) && Apart(c.status, 1, UsedIndex(d), 2)
    && Apart(UsedSlot(d), 2, UsedIndex(d), 2)
  }

  lemma EndWritten(m: Mem, d: Device, c: Chain, r: Request)
    requires d.vq.num > 0 && EndFree(m, d, c) && r.status == c.status && ToNat(r.slot) == c.head < 0x1_0000
    ensures var m' := Completed(m, d.vq, d.id, r);
            && NumberAt(m', c.status, 1) == 0 && NumberAt(m', UsedSlot(d), 2) == c.head
            && NumberAt(m', UsedIndex(d), 2) == (ToNat(d.id) + 1) % 0x1_0000
  {
    hide ToNat, Store, NumberAt, At, Wide, Scale, Next;
    WideAt(d.vq.used, 4 + ToNat(d.id) % d.vq.num * 8, 0);
    WideAt(d.vq.used, 2, 0);
    Scales();
    var slotAt, idxAt, v := UsedSlot(d), UsedIndex(d), Next(d.id);
    var m1 := Store(m, c.status, 1, 0);
    var m2 := Store(m1, slotAt, 2, r.slot);
    NumberStored(m, c.status, 1, 0);
    NumberElsewhere(m1, slotAt, 2, r.slot, c.status, 1);
    NumberElsewhere(m2, idxAt, 2, v, c.status, 1);
    NumberStored(m1, slotAt, 2, r.slot);
    NumberElsewhere(m2, idxAt, 2, v, slotAt, 2);
    NumberStored(m2, idxAt, 2, v);
    NextId(d.id);
    assert ToNat(0) == 0 by { Zero(); }
  }

  lemma HeadBelow(m: Mem, q: Virtq, c: Chain)
    requires q.num > 0 && Posted(m, q, c)
    ensures c.head < 0x1_0000
  {
    hide NumberAt, Wide, Scale, Described;
    NumberAtBelow(m, Wide(q.avail + 4 + c.idx % q.num * 2), 2);
    Scales();
  }

  lemma TransferEnds(m: Mem, d: Device)
    requires d.vq.num > 0 && InImage(d, RequestOf(m, d.vq))
    ensures var r := RequestOf(m, d.vq);
            var p := if r.out then m else WithBytes(m, r.buffer, d.image[r.first..r.first + r.len], r.len);
            Transfer(m, d).0 == Completed(p, d.vq, d.id, r)
  {
    hide RequestOf, WithBytes, Completed, BytesFrom;
  }

  /** A request ends with status 0, the number of its first descriptor in the used ring, and an index one
      higher, modulo 2^16. */
  lemma RequestEnds(m: Mem, d: Device, c: Chain)
    requires d.vq.num > 0 && Posted(m, d.vq, c) && OnDisk(d, c) && Waited(d) && EndFree(m, d, c)
    ensures Due(d) && Servable(m, d)
    ensures var m' := TickEffect(m, d).0;
            && NumberAt(m', c.status, 1) == 0 && NumberAt(m', UsedSlot(d), 2) == c.head
            && NumberAt(m', UsedIndex(d), 2) == (ToNat(d.id) + 1) % 0x1_0000
  {
    hide RequestOf, Posted, Due, Waited, Completed, NumberAt, UsedSlot, UsedIndex, ToNat, Servable, TickEffect,
      FirstByte, Transfer, WithBytes, InImage, Apart;
    RequestMeans(m, d.vq, c);
    PostedServable(m, d, c);
    WaitedIsDue(d);
    ReadParts(m, d);
    TickMemory(m, d);
    TransferEnds(m, d);
    HeadBelow(m, d.vq, c);
    var r := RequestOf(m, d.vq);
    EndWritten(if r.out then m else WithBytes(m, r.buffer, d.image[r.first..r.first + r.len], r.len), d, c, r);
  }

  /** A tick counts the clock; the one that serves a request raises bit 0 of the interrupt status, counts
      the request and is done with the notification. */
  lemma TickRegisters(m: Mem, d: Device)
    requires Waited(d) ==> d.vq.num > 0 && InImage(d, RequestOf(m, d.vq))
    ensures Due(d) ==> Servable(m, d)
    ensures var (m', d') := TickEffect(m, d);
            var clock := (d.clock + 1) % 0x1_0000_0000_0000_0000;
            if Waited(d) then
              && d' == d.(clock := clock, queueNotify := 0xffff_ffff, isr := d.isr | 1, id := d'.id, image := d'.image)
              && ToNat(d'.id) == (ToNat(d.id) + 1) % 0x1_0000
            else m' == m && d' == d.(clock := clock)
  {
    hide RequestOf, Transfer, ToNat, InImage, Next;
    if Waited(d) {
      SameRequest(m, d, d.(isr := d.isr | 1));
      ServedDevice(m, d.(isr := d.isr | 1));
      NextId(d.id);
    }
  }

  lemma SameRequest(m: Mem, d: Device, e: Device)
    requires d.vq.num > 0 && e == d.(isr := e.isr)
    ensures InImage(e, RequestOf(m, e.vq)) == InImage(d, RequestOf(m, d.vq))
  {
    hide RequestOf;
  }

  lemma ServedDevice(m: Mem, d: Device)
    requires d.vq.num > 0 && InImage(d, RequestOf(m, d.vq))
    ensures var d' := Transfer(m, d).1; d' == d.(id := Next(d.id), image := d'.image)
  {
    hide RequestOf, WithBytes, Completed, BytesFrom, Next;
  }

  // ---- The addresses a request touches -----------------------------------------------------------------------

  /** A descriptor is read in four parts. */
  predicate DescriptorInRam(m: Mem, q: Virtq, i: nat)
  {
    && InRam(m, Wide(q.desc + 16 * i)) && InRam(m, Wide(q.desc + 16 * i + 8))
    && InRam(m, Wide(q.desc + 16 * i + 12)) && InRam(m, Wide(q.desc + 16 * i + 14))
  }

  function ByteAddress(buffer: nat, i: nat): nat { Wide(buffer + i) }

  predicate BufferTouchable(m: Mem, buffer: nat, len: nat)
  {
    forall i | 0 <= i < len :: InRam(m, ByteAddress(buffer, i))
  }

  /** All of the addresses are in RAM. */
  predicate Touchable(m: Mem, d: Device, c: Chain)
    requires d.vq.num > 0
  {
    var q := d.vq;
    && InRam(m, Wide(q.avail + 2)) && InRam(m, Wide(q.avail + 4 + c.idx % q.num * 2))
    && DescriptorInRam(m, q, c.head) && DescriptorInRam(m, q, c.second) && DescriptorInRam(m, q, c.third)
    && InRam(m, c.header) && InRam(m, Wide(c.header + 8))
    && BufferTouchable(m, c.buffer, c.len)
    && InRam(m, c.status) && InRam(m, UsedSlot(d)) && InRam(m, UsedIndex(d))
  }

  lemma DescriptorTouched(m: Mem, q: Virtq, i: nat)
    ensures DescInRam(m, At(q.desc, 16 * i)) <==> DescriptorInRam(m, q, i)
  {
    hide At, Wide, InRam;
    WideAt(q.desc, 16 * i, 8);
    WideAt(q.desc, 16 * i, 12);
    WideAt(q.desc, 16 * i, 14);
  }

  lemma RouteMeans(m: Mem, q: Virtq, c: Chain)
    requires q.num > 0 && Posted(m, q, c)
    ensures RouteOf(m, q) ==
            Route(Wide(q.avail + 2), Wide(q.avail + 4 + c.idx % q.num * 2), At(q.desc, 16 * c.head),
                  At(q.desc, 16 * c.second), At(q.desc, 16 * c.third), c.header, Wide(c.header + 8))
  {
    hide ToNat, Load, NumberAt, LoadDesc, Described, At, Wide;
    var l0 :| Described(m, q, c.head, c.header, l0, c.second);
    DescriptorMeans(m, q, c.head, c.header, l0, c.second);
    DescriptorMeans(m, q, c.second, c.buffer, c.len, c.third);
    WideAt(q.avail, 2, 0);
    WideAt(q.avail, 4 + c.idx % q.num * 2, 0);
    WideAt(c.header, 8, 0);
    LoadsNumber(m, At(q.avail, 2), 2);
    LoadsNumber(m, At(q.avail, 4 + c.idx % q.num * 2), 2);
  }

  lemma BufferTouched(m: Mem, a: nat, n: nat)
    ensures BufferInRam(m, a, n) <==> BufferTouchable(m, a, n)
  {
    hide InRam;
    assert forall i: nat :: At(a, i) == ByteAddress(a, i);
  }

  lemma DmaMeans(m: Mem, d: Device, c: Chain)
    requires d.vq.num > 0 && Posted(m, d.vq, c)
    ensures DmaInRam(m, d) <==> Touchable(m, d, c)
  {
    hide RequestOf, RouteOf, Posted, At, Wide, InRam, DescInRam, DescriptorInRam, BufferInRam, BufferTouchable, ToNat;
    RequestMeans(m, d.vq, c);
    RouteMeans(m, d.vq, c);
    DescriptorTouched(m, d.vq, c.head);
    DescriptorTouched(m, d.vq, c.second);
    DescriptorTouched(m, d.vq, c.third);
    BufferTouched(m, c.buffer, c.len);
    WideAt(d.vq.used, 4 + ToNat(d.id) % d.vq.num * 8, 0);
    WideAt(d.vq.used, 2, 0);
  }

  /** The tick raises an exception in the hart if and only if the request touches an address outside RAM. */
  lemma RequestRaises(s: Hart.State, d: Device, c: Chain)
    requires d.vq.num > 0 && Posted(s.mem, d.vq, c) && OnDisk(d, c) && Waited(d) && s.exc == Hart.NoException
    ensures Due(d) && Servable(s.mem, d)
    ensures TickedIn(s, d).exc == Hart.NoException <==> Touchable(s.mem, d, c)
  {
    hide RequestOf, Posted, Due, Waited, Servable, ServedIn, Transfer, DmaInRam, Touchable, FirstByte;
    PostedServable(s.mem, d, c);
    WaitedIsDue(d);
    ReadParts(s.mem, d);
    ServedMeans(s, d);
    DmaMeans(s.mem, d, c);
  }

  // ---- Setting up the queue -----------------------------------------------------------------------------------

  /** A driver gives the page size, the number of entries, the alignment and the page number, then notifies
      the device. */
  function SetUp(d: Device, pageSize: bv64, num: bv64, align: bv64, pfn: bv64, notification: bv64): Device
    requires ToNat(align) % 0x1_0000_0000 > 0
  {
    var d := RegisterStored(d, 0x28, pageSize);
    var d := RegisterStored(d, 0x38, num);
    var d := RegisterStored(d, 0x3c, align);
    var d := RegisterStored(d, 0x40, pfn);
    RegisterStored(d, 0x50, notification)
  }

  /** `v` is the least multiple of `a` from `x` on. */
  predicate RoundedUp(v: nat, x: nat, a: nat)
    requires a > 0
  {
    v % a == 0 && x <= v < x + a
  }

  /** The queue is laid out from the page on, descriptors first, and the notification starts to wait. */
  lemma QueueIsLaidOut(d: Device, pageSize: bv64, num: bv64, align: bv64, pfn: bv64, notification: bv64)
    requires ToNat(align) % 0x1_0000_0000 > 0
    ensures var e, n := SetUp(d, pageSize, num, align, pfn, notification), ToNat(num) % 0x1_0000_0000;
            && e.vq.num == n && e.vq.align == ToNat(align) % 0x1_0000_0000
            && e.vq.desc == (ToNat(pfn) * ToNat(pageSize)) % 0x1_0000_0000
            && e.vq.avail == e.vq.desc + 16 * n && RoundedUp(e.vq.used, e.vq.avail + 4 + 2 * n, e.vq.align)
            && e.queueNotify == ToNat(notification) % 0x1_0000_0000 && e.notifyClock == d.clock && e.clock == d.clock
            && e.image == d.image && e.id == d.id && e.isr == d.isr && e.status == d.status
  {
    hide ToNat, AlignUp, LowByte, Not;
    SamePage(ToNat(pfn), ToNat(pageSize));
    var n := ToNat(num) % 0x1_0000_0000;
    AlignedUp((ToNat(pfn) * ToNat(pageSize)) % 0x1_0000_0000 + 16 * n + 4 + 2 * n, ToNat(align) % 0x1_0000_0000);
  }

  lemma SamePage(x: nat, y: nat)
    ensures x % TWO32 * (y % TWO32) % TWO32 == x * y % TWO32
  {
    CongruentProduct(x % TWO32, y % TWO32, y, TWO32);
    assert y * (x % TWO32) == x % TWO32 * y && y * x == x * y;
    CongruentProduct(y, x % TWO32, x, TWO32);
  }

  lemma AckBits(value: bv64)
    ensures LowByte(Not(value)) == !LowByte(value)
  {}

  /** The interrupt status takes the complement of the low byte, status its low byte; status 0 resets the
      interrupt status and the count of requests, and bit 2 lays the queue out again. */
  lemma AcknowledgeAndStatus(d: Device, value: bv64)
    requires d.vq.align > 0
    ensures RegisterStored(d, 0x64, value) == d.(isr := !LowByte(value))
    ensures var e, b := RegisterStored(d, 0x70, value), LowByte(value);
            && e == d.(status := b, id := e.id, isr := e.isr, vq := e.vq)
            && (if b == 0 then e.id == 0 && e.isr == 0 && e.vq == d.vq
                else e.id == d.id && e.isr == d.isr && e.vq == if b & 4 != 0 then Laid(d) else d.vq)
  {
    hide ToNat, Low32Of, LowByte, Not, AlignUp;
    AckBits(value);
  }
}
