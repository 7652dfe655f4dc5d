/** The four-entry translation cache as a value, and the proof that a translation served
    through it is the translation the page tables define. */
module Tlb {
  import opened Memory
  import opened Pte
  import opened PageTable

  const TLB_ENTRIES := 4
  const RESET_AGE := 0xffff_ffff

  datatype Entry = Entry(
    virtBase: bv64, physBase: bv64, pte: bv64, pteAddr: nat, age: nat,
    dirty: bool, accessed: bool, read: bool, write: bool, execute: bool, user: bool)

  const EMPTY := Entry(0, 0, 0, 0, RESET_AGE, false, false, false, false, false, false)

  const FLUSHED: seq<Entry> := [EMPTY, EMPTY, EMPTY, EMPTY]

  /** A slot holds a translation when its PTE copy is valid. */
  predicate Filled(e: Entry)
  {
    HasV(e.pte)
  }

  predicate Full(t: seq<Entry>)
  {
    forall k | 0 <= k < |t| :: Filled(t[k])
  }

  /** Ages are 64-bit counters. */
  function Bump(age: nat): nat
  {
    (age + 1) % TWO64
  }

  function Aged(e: Entry): Entry
  {
    e.(age := Bump(e.age))
  }

  /** One lookup that uses slot `k`: every other slot grows older, slot `k` becomes the youngest. */
  function Touch(t: seq<Entry>, k: nat): (t': seq<Entry>)
    requires k < |t|
    ensures |t'| == |t|
    ensures forall j | 0 <= j < |t| :: t'[j] == if j == k then t[k].(age := 0) else Aged(t[j])
  {
    seq(|t|, j requires 0 <= j < |t| => if j == k then t[k].(age := 0) else Aged(t[j]))
  }

  /** One lookup that misses: every slot grows older. */
  function Older(t: seq<Entry>): (t': seq<Entry>)
    ensures |t'| == |t|
    ensures forall j | 0 <= j < |t| :: t'[j] == Aged(t[j])
  {
    seq(|t|, j requires 0 <= j < |t| => Aged(t[j]))
  }

  lemma AllOlder(t': seq<Entry>, t: seq<Entry>)
    requires |t'| == |t| && forall j | 0 <= j < |t| :: t'[j] == Aged(t[j])
    ensures t' == Older(t)
  {}

  /** Filling one slot after a miss is touching it and replacing it. */
  lemma OlderFilled(t: seq<Entry>, k: nat, e: Entry)
    requires k < |t|
    ensures Older(t)[k := e] == Touch(t, k)[k := e]
  {
    hide Aged;
    var a, b := Older(t)[k := e], Touch(t, k)[k := e];
    assert forall j | 0 <= j < |t| :: a[j] == b[j];
  }

  /** The first slot at or after `from` that is tagged with `page`, or |t|. */
  function Find(t: seq<Entry>, page: bv64, from: nat): (k: nat)
    requires from <= |t|
    ensures from <= k <= |t|
    ensures forall j | from <= j < k :: t[j].virtBase != page
    ensures k < |t| ==> t[k].virtBase == page
    decreases |t| - from
  {
    if from == |t| || t[from].virtBase == page then from else Find(t, page, from + 1)
  }

  lemma FoundFirst(t: seq<Entry>, page: bv64, k: nat)
    requires k < |t| && t[k].virtBase == page && forall j | 0 <= j < k :: t[j].virtBase != page
    ensures Find(t, page, 0) == k
  {}

  lemma FoundNone(t: seq<Entry>, page: bv64)
    requires forall j | 0 <= j < |t| :: t[j].virtBase != page
    ensures Find(t, page, 0) == |t|
  {}

  function Ages(t: seq<Entry>): (a: seq<nat>)
    ensures |a| == |t| && forall j | 0 <= j < |t| :: a[j] == t[j].age
  {
    seq(|t|, j requires 0 <= j < |t| => t[j].age)
  }

  /** The index among the first `n` with the greatest age after aging, the first one on a tie. */
  function Oldest(ages: seq<nat>, n: nat): (v: nat)
    requires 0 < n <= |ages|
    ensures v < n
    ensures forall j | 0 <= j < n :: Bump(ages[j]) <= Bump(ages[v])
    ensures forall j | 0 <= j < v :: Bump(ages[j]) < Bump(ages[v])
  {
    if n == 1 then 0
    else
      var v := Oldest(ages, n - 1);
      if Bump(ages[n - 1]) > Bump(ages[v]) then n - 1 else v
  }

  lemma OldestNext(ages: seq<nat>, n: nat)
    requires n < |ages|
    ensures n == 0 ==> Oldest(ages, 1) == 0
    ensures n > 0 ==> Oldest(ages, n + 1) == if Bump(ages[n]) > Bump(ages[Oldest(ages, n)]) then n else Oldest(ages, n)
  {}

  function Victim(t: seq<Entry>): (v: nat)
    requires |t| == TLB_ENTRIES
    ensures v < TLB_ENTRIES
  {
    Oldest(Ages(t), |t|)
  }

  /** The entry for `va` that a walk ending in the given leaf fills in. */
  function FilledEntry(va: bv64, i: Level, addr: nat, pte: bv64): Entry
  {
    Entry(PageOf(va), PhysBase(pte, va, i), pte, addr, 0,
          HasD(pte), HasA(pte), HasR(pte), HasW(pte), HasX(pte), HasU(pte))
  }

  datatype Lookup = Missing | Slot(tlb: seq<Entry>, index: nat)

  function LookupOf(t: seq<Entry>, m: Mem, root: Root, va: bv64): (l: Lookup)
    requires |t| == TLB_ENTRIES
    ensures l.Slot? ==> |l.tlb| == TLB_ENTRIES && l.index < TLB_ENTRIES
  {
    var k := Find(t, PageOf(va), 0);
    if k < |t| then Slot(Touch(t, k), k)
    else match WalkOf(m, root, va)
      case Fault => Missing
      case Leaf(i, addr, pte) =>
        var v := Victim(t);
        Slot(Touch(t, v)[v := FilledEntry(va, i, addr, pte)], v)
  }

  /** The permission checks, in the emulator's order, on the flags of an entry. */
  predicate EntryPermits(e: Entry, priv: Priv, sum: bool, mxr: bool, acc: Access)
  {
    && !(!e.read && e.write)
    && !(e.user && priv != User && (!sum || acc.FetchAccess?))
    && !(!e.user && priv != Supervisor)
    && (match acc
        case LoadAccess => e.read || (e.execute && mxr)
        case StoreAccess => e.write
        case FetchAccess => e.execute)
  }

  predicate NeedsMark(e: Entry, acc: Access)
  {
    !e.accessed || (acc.StoreAccess? && !e.dirty)
  }

  function MarkEntry(e: Entry, acc: Access): Entry
  {
    e.(pte := Marked(e.pte, acc), accessed := true, dirty := e.dirty || acc.StoreAccess?)
  }

  /** `lost` tells that the bus rejected the write of A and D. */
  datatype Served = Served(tlb: seq<Entry>, mem: Mem, pa: Option<bv64>, lost: bool)

  function Finish(t: seq<Entry>, m: Mem, k: nat, c: Ctx, va: bv64, acc: Access): (s: Served)
    requires |t| == TLB_ENTRIES && k < TLB_ENTRIES
    ensures |s.tlb| == TLB_ENTRIES
  {
    var e := t[k];
    if !EntryPermits(e, EffectivePriv(c, acc), c.sum, c.mxr, acc) then Served(FLUSHED, m, None, false)
    else
      var pa := Some(WithOffset(e.physBase, va));
      if NeedsMark(e, acc) then
        Served(t[k := MarkEntry(e, acc)], Store(m, e.pteAddr, 8, Marked(e.pte, acc)), pa, !InRam(m, e.pteAddr))
      else Served(t, m, pa, false)
  }

  /** Translation through the cache. */
  function Serve(t: seq<Entry>, m: Mem, root: Root, c: Ctx, va: bv64, acc: Access): (s: Served)
    requires |t| == TLB_ENTRIES
    ensures |s.tlb| == TLB_ENTRIES
  {
    if Bypass(root, c, acc) then Served(t, m, Some(va), false)
    else match LookupOf(t, m, root, va)
      case Missing => Served(FLUSHED, m, None, false)
      case Slot(t', k) => Finish(t', m, k, c, va, acc)
  }

  /** The lookup of the build without the cache: every access walks into slot 0, whose tag and age
      stay. */
  function DirectLookup(t: seq<Entry>, m: Mem, root: Root, va: bv64): (l: Lookup)
    requires |t| == TLB_ENTRIES
    ensures l.Slot? ==> |l.tlb| == TLB_ENTRIES && l.index < TLB_ENTRIES
  {
    match WalkOf(m, root, va)
    case Fault => Missing
    case Leaf(i, addr, pte) =>
      Slot(t[0 := FilledEntry(va, i, addr, pte).(virtBase := t[0].virtBase, age := t[0].age)], 0)
  }

  function LookupIn(cached: bool, t: seq<Entry>, m: Mem, root: Root, va: bv64): (l: Lookup)
    requires |t| == TLB_ENTRIES
    ensures l.Slot? ==> |l.tlb| == TLB_ENTRIES && l.index < TLB_ENTRIES
  {
    if cached then LookupOf(t, m, root, va) else DirectLookup(t, m, root, va)
  }

  /** Translation in the build without the cache. */
  function ServeDirect(t: seq<Entry>, m: Mem, root: Root, c: Ctx, va: bv64, acc: Access): (s: Served)
    requires |t| == TLB_ENTRIES
    ensures |s.tlb| == TLB_ENTRIES
  {
    if Bypass(root, c, acc) then Served(t, m, Some(va), false)
    else match DirectLookup(t, m, root, va)
      case Missing => Served(FLUSHED, m, None, false)
      case Slot(t', k) => Finish(t', m, k, c, va, acc)
  }

  /** Translation in the build that `cached` selects. */
  function ServeIn(cached: bool, t: seq<Entry>, m: Mem, root: Root, c: Ctx, va: bv64, acc: Access): (s: Served)
    requires |t| == TLB_ENTRIES
    ensures |s.tlb| == TLB_ENTRIES
  {
    if cached then Serve(t, m, root, c, va, acc) else ServeDirect(t, m, root, c, va, acc)
  }

  // ---- Coherence of the cache with the page tables ------------------------------------

  /** `p` is a copy of the PTE `q` that may lack D. */
  predicate StaleCopy(p: bv64, q: bv64)
  {
    q == p || q == SetD(p)
  }

  predicate FlagsMatch(e: Entry)
  {
    && e.dirty == HasD(e.pte) && e.accessed == HasA(e.pte)
    && e.read == HasR(e.pte) && e.write == HasW(e.pte)
    && e.execute == HasX(e.pte) && e.user == HasU(e.pte)
  }

  /** Entry `e` is the translation the page tables in `m` give its page, up to a missing D. */
  ghost predicate Current(e: Entry, m: Mem, root: Root)
  {
    var w := WalkOf(m, root, e.virtBase);
    && w.Leaf?
    && e.pteAddr == w.addr
    && e.physBase == PhysBase(w.pte, e.virtBase, w.level)
    && StaleCopy(e.pte, w.pte)
    && FlagsMatch(e)
  }

  ghost predicate EntryOk(e: Entry, m: Mem, root: Root)
  {
    if Filled(e) then Current(e, m, root) && e.accessed
    else e.virtBase == 0 && !e.read && !e.write && !e.execute && !e.user
  }

  ghost predicate Entries(t: seq<Entry>, m: Mem, root: Root)
  {
    forall k | 0 <= k < |t| :: EntryOk(t[k], m, root)
  }

  /** Page 0 is cached only once every slot is in use (an empty slot is tagged 0 too). */
  predicate NoZeroUnlessFull(t: seq<Entry>)
  {
    Full(t) || forall k | 0 <= k < |t| :: Filled(t[k]) ==> t[k].virtBase != 0
  }

  /** What holds between any two translations. */
  ghost predicate Coherent(t: seq<Entry>, m: Mem, root: Root)
  {
    && |t| == TLB_ENTRIES && ValidMem(m) && root.table % 8 == 0
    && Entries(t, m, root)
    && NoZeroUnlessFull(t)
  }

  /** What a slot holds, whatever has been done to memory since: one whole translation of a valid
      leaf, with the flags of its PTE and a physical page that fits it, or nothing at all. */
  ghost predicate EntryWhole(e: Entry)
  {
    if Filled(e) then FlagsMatch(e) && !BadPte(e.pte) && LeafPte(e.pte) && exists i: Level :: MapsAt(e, i)
    else e.virtBase == 0 && !e.read && !e.write && !e.execute && !e.user
  }

  predicate MapsAt(e: Entry, i: Level)
  {
    !Misaligned(e.pte, i) && e.physBase == PhysBase(e.pte, e.virtBase, i)
  }

  ghost predicate Whole(t: seq<Entry>)
  {
    |t| == TLB_ENTRIES && NoZeroUnlessFull(t) && forall k | 0 <= k < |t| :: EntryWhole(t[k])
  }

  // ---- One translation ------------------------------------------------------------------

  lemma StaleClean(p: bv64, q: bv64)
    requires StaleCopy(p, q)
    ensures Clean(p) == Clean(q)
    ensures HasA(p) == HasA(q) && (HasD(p) ==> p == q)
  {
    hide Clean, SetD, HasA, HasD;
    SetDFacts(p);
  }

  /** Marking a stale copy writes what marking the PTE itself writes, and no write is
      skipped that marking the PTE itself would make. */
  lemma MarkStale(p: bv64, q: bv64, acc: Access)
    requires StaleCopy(p, q) && (HasA(p) || p == q)
    ensures if !HasA(p) || (acc.StoreAccess? && !HasD(p)) then Marked(p, acc) == Marked(q, acc)
            else Marked(q, acc) == q
    ensures HasA(p) ==> StaleCopy(p, Marked(q, acc))
  {
    hide SetA, SetD, HasA, HasD, Clean;
    StaleClean(p, q);
    SetAFacts(p);
    SetAFacts(q);
    SetDFacts(p);
    SetDFacts(q);
  }

  lemma MarkedFlags(p: bv64, acc: Access)
    ensures HasV(Marked(p, acc)) == HasV(p) && HasR(Marked(p, acc)) == HasR(p)
    ensures HasW(Marked(p, acc)) == HasW(p) && HasX(Marked(p, acc)) == HasX(p)
    ensures HasU(Marked(p, acc)) == HasU(p)
  {
    hide *;
    CleanMarked(p, acc);
    SameClean(Marked(p, acc), p);
  }

  /** An entry stays current when the PTE of some leaf is marked in memory. */
  lemma EntryAfterMark(e: Entry, m: Mem, root: Root, addr: nat, q: bv64, acc: Access)
    requires EntryOk(e, m, root) && root.table % 8 == 0
    requires addr % 8 == 0 && q == Load(m, addr, 8) && HasV(q)
    ensures EntryOk(e, Store(m, addr, 8, Marked(q, acc)), root)
  {
    hide Load, Store, Marked, Clean, HasV, HasA, HasD, HasR, HasW, HasX, HasU, PhysBase, SetD,
      WalkFrom, BadPte, LeafPte, Misaligned, MemSameButAD;
    if Filled(e) {
      var m' := Store(m, addr, 8, Marked(q, acc));
      ValidInRam(m, addr);
      CleanMarked(q, acc);
      MarkWord(m, addr, Marked(q, acc));
      WalkSameButAD(m, m', e.virtBase, root.table, Levels(root.mode) - 1);
      var w := WalkOf(m, root, e.virtBase);
      WalkLeaf(m, e.virtBase, root.table, Levels(root.mode) - 1);
      PhysBaseSame(w.pte, Load(m', w.addr, 8), e.virtBase, w.level);
      if w.addr == addr {
        MarkStale(e.pte, q, acc);
      } else {
        LoadElsewhere(m, addr, 8, Marked(q, acc), w.addr, 8);
      }
    }
  }

  lemma FlushedCoherent(m: Mem, root: Root)
    requires ValidMem(m) && root.table % 8 == 0
    ensures Coherent(FLUSHED, m, root)
  {
    hide HasV, Current;
    NothingValid();
  }

  /** The emulator's permission checks on a current entry are the architecture's on the PTE. */
  lemma PermitsAgree(e: Entry, q: bv64, priv: Priv, sum: bool, mxr: bool, acc: Access)
    requires StaleCopy(e.pte, q) && FlagsMatch(e) && !BadPte(q) && priv != Machine
    ensures EntryPermits(e, priv, sum, mxr, acc) == Permitted(q, priv, sum, mxr, acc)
  {
    hide HasV, HasA, HasD, HasR, HasW, HasX, HasU, StaleCopy, Clean, Misaligned, Ppn;
    StaleClean(e.pte, q);
    SameClean(e.pte, q);
  }

  /** The slot a lookup yields: current, and either accessed before or just filled. */
  ghost predicate Ready(e: Entry, m: Mem, root: Root)
  {
    && Filled(e) && Current(e, m, root)
    && (e.accessed || e.pte == WalkOf(m, root, e.virtBase).pte)
  }

  lemma EntriesAfterMark(t: seq<Entry>, k: nat, m: Mem, root: Root, addr: nat, q: bv64, acc: Access)
    requires root.table % 8 == 0 && addr % 8 == 0 && q == Load(m, addr, 8) && HasV(q)
    requires forall j | 0 <= j < |t| && j != k :: EntryOk(t[j], m, root)
    ensures forall j | 0 <= j < |t| && j != k :: EntryOk(t[j], Store(m, addr, 8, Marked(q, acc)), root)
  {
    hide *;
    forall j | 0 <= j < |t| && j != k
      ensures EntryOk(t[j], Store(m, addr, 8, Marked(q, acc)), root)
    {
      EntryAfterMark(t[j], m, root, addr, q, acc);
    }
  }

  lemma CurrentLeaf(e: Entry, m: Mem, root: Root)
    requires root.table % 8 == 0 && Current(e, m, root)
    ensures var w := WalkOf(m, root, e.virtBase);
            w.addr % 8 == 0 && w.pte == Load(m, w.addr, 8) && HasV(w.pte) && !BadPte(w.pte)
            && m.base <= w.addr && w.addr + 8 <= m.base + |m.data|
  {
    hide Load, HasV, HasA, HasD, HasR, HasW, HasX, HasU, SetD, WalkFrom, LeafPte, Misaligned, PhysBase;
    WalkLeaf(m, e.virtBase, root.table, Levels(root.mode) - 1);
    ValidInRam(m, WalkOf(m, root, e.virtBase).addr);
  }

  /** A permitted access through a ready slot marks the PTE as the page tables require. */
  lemma MarkRefines(e: Entry, m: Mem, root: Root, acc: Access)
    requires root.table % 8 == 0 && Ready(e, m, root)
    ensures var w := WalkOf(m, root, e.virtBase);
            var m' := Store(m, w.addr, 8, Marked(w.pte, acc));
            if NeedsMark(e, acc)
            then Marked(e.pte, acc) == Marked(w.pte, acc) && EntryOk(MarkEntry(e, acc), m', root)
            else m' == m && EntryOk(e, m, root)
  {
    hide Load, Store, Marked, Clean, HasV, HasA, HasD, HasR, HasW, HasX, HasU, SetD, WalkOf, PhysBase, BadPte;
    CurrentLeaf(e, m, root);
    var w := WalkOf(m, root, e.virtBase);
    MarkStale(e.pte, w.pte, acc);
    if NeedsMark(e, acc) {
      MarkedEntryOk(e, m, root, acc);
    } else {
      StoreLoaded(m, w.addr, 8);
    }
  }

  lemma MarkedEntryOk(e: Entry, m: Mem, root: Root, acc: Access)
    requires root.table % 8 == 0 && Filled(e) && Current(e, m, root)
    requires Marked(e.pte, acc) == Marked(WalkOf(m, root, e.virtBase).pte, acc)
    ensures var w := WalkOf(m, root, e.virtBase);
            EntryOk(MarkEntry(e, acc), Store(m, w.addr, 8, Marked(w.pte, acc)), root)
  {
    hide Load, Store, Marked, Clean, HasV, HasA, HasD, HasR, HasW, HasX, HasU, PhysBase, SetD,
      WalkFrom, BadPte, MemSameButAD;
    CurrentLeaf(e, m, root);
    var w := WalkOf(m, root, e.virtBase);
    var v := Marked(w.pte, acc);
    CleanMarked(w.pte, acc);
    CleanMarked(e.pte, acc);
    MarkedFlags(e.pte, acc);
    MarkWord(m, w.addr, v);
    WalkSameButAD(m, Store(m, w.addr, 8, v), e.virtBase, root.table, Levels(root.mode) - 1);
    PhysBaseSame(w.pte, v, e.virtBase, w.level);
  }

  lemma NoZeroUpdate(t: seq<Entry>, k: nat, e: Entry)
    requires k < |t| && NoZeroUnlessFull(t) && Filled(e) == Filled(t[k]) && e.virtBase == t[k].virtBase
    ensures NoZeroUnlessFull(t[k := e])
  {
    hide Filled;
    var t' := t[k := e];
    assert forall j | 0 <= j < |t| :: Filled(t'[j]) == Filled(t[j]) && t'[j].virtBase == t[j].virtBase;
  }

  lemma FinishCoherent(t: seq<Entry>, m: Mem, root: Root, k: nat, c: Ctx, va: bv64, acc: Access)
    requires |t| == TLB_ENTRIES && k < |t| && ValidMem(m) && root.table % 8 == 0
    requires Ready(t[k], m, root) && NoZeroUnlessFull(t)
    requires forall j | 0 <= j < |t| && j != k :: EntryOk(t[j], m, root)
    ensures var s := Finish(t, m, k, c, va, acc); Coherent(s.tlb, s.mem, root)
  {
    hide Load, Store, Marked, HasV, PhysBase, WalkOf, WithOffset, EntryPermits, NeedsMark, BadPte,
      Ready, EntryOk, NoZeroUnlessFull, StaleCopy, FlagsMatch;
    var e := t[k];
    assert Current(e, m, root) && Filled(e) by { ReadyParts(e, m, root); }
    var w := WalkOf(m, root, e.virtBase);
    FlushedCoherent(m, root);
    CurrentLeaf(e, m, root);
    MarkRefines(e, m, root, acc);
    EntriesAfterMark(t, k, m, root, w.addr, w.pte, acc);
    MarkedFlags(e.pte, acc);
    NoZeroUpdate(t, k, MarkEntry(e, acc));
  }

  lemma ReadyParts(e: Entry, m: Mem, root: Root)
    requires Ready(e, m, root)
    ensures Current(e, m, root) && Filled(e)
  {
    hide Current, Filled;
  }

  /** From a ready slot on, the emulator does what the page tables define. */
  lemma FinishRefines(t: seq<Entry>, m: Mem, root: Root, k: nat, c: Ctx, va: bv64, acc: Access)
    requires |t| == TLB_ENTRIES && k < |t| && root.table % 8 == 0
    requires !Bypass(root, c, acc)
    requires Ready(t[k], m, root) && t[k].virtBase == PageOf(va)
    ensures var s, r := Finish(t, m, k, c, va, acc), Translate(m, root, c, va, acc);
            s.mem == r.mem && s.pa == r.pa && !s.lost
  {
    hide Load, Store, Marked, HasV, PhysBase, PageOf, EntryOk, StaleCopy, FlagsMatch, WalkFrom,
      WithOffset, Permitted, EntryPermits, NeedsMark, BadPte;
    var e := t[k];
    CurrentLeaf(e, m, root);
    WalkOfPage(m, va, root.table, Levels(root.mode) - 1);
    var w := WalkOf(m, root, va);
    PhysBaseOfPage(w.pte, va, w.level);
    PermitsAgree(e, w.pte, EffectivePriv(c, acc), c.sum, c.mxr, acc);
    MarkRefines(e, m, root, acc);
  }

  lemma AgedOk(e: Entry, e': Entry, m: Mem, root: Root)
    requires e' == e.(age := e'.age)
    ensures EntryOk(e', m, root) == EntryOk(e, m, root)
    ensures Ready(e', m, root) == Ready(e, m, root)
    ensures Filled(e') == Filled(e)
  {
    hide WalkOf, StaleCopy, PhysBase, HasV, HasA, HasD, HasR, HasW, HasX, HasU;
  }

  lemma TouchOk(t: seq<Entry>, k: nat, m: Mem, root: Root)
    requires k < |t| && Entries(t, m, root) && NoZeroUnlessFull(t)
    ensures Entries(Touch(t, k), m, root) && NoZeroUnlessFull(Touch(t, k))
    ensures Full(Touch(t, k)) == Full(t)
  {
    hide EntryOk, Filled;
    var t' := Touch(t, k);
    forall j | 0 <= j < |t|
      ensures EntryOk(t'[j], m, root) && Filled(t'[j]) == Filled(t[j]) && t'[j].virtBase == t[j].virtBase
    {
      assert EntryOk(t[j], m, root);
      AgedOk(t[j], t'[j], m, root);
    }
  }

  lemma EntryReady(e: Entry, m: Mem, root: Root)
    requires EntryOk(e, m, root) && Filled(e)
    ensures Ready(e, m, root)
  {
    hide Current, Filled;
  }

  /** A walk fills in a ready entry. */
  lemma FilledReady(m: Mem, root: Root, va: bv64)
    requires WalkOf(m, root, va).Leaf?
    ensures var w := WalkOf(m, root, va); Ready(FilledEntry(va, w.level, w.addr, w.pte), m, root)
  {
    hide Load, HasV, HasA, HasD, HasR, HasW, HasX, HasU, PhysBase, PageOf, WalkFrom, Misaligned;
    WalkOfPage(m, va, root.table, Levels(root.mode) - 1);
    var w := WalkOf(m, root, va);
    WalkLeaf(m, va, root.table, Levels(root.mode) - 1);
    PhysBaseOfPage(w.pte, va, w.level);
  }

  lemma FilledTag(va: bv64, i: Level, addr: nat, pte: bv64)
    ensures FilledEntry(va, i, addr, pte).virtBase == PageOf(va) && FilledEntry(va, i, addr, pte).age == 0
  {
    hide PageOf, PhysBase, HasA, HasD, HasR, HasW, HasX, HasU;
  }

  /** An empty slot lets nothing through. */
  lemma EmptyDenies(e: Entry, priv: Priv, sum: bool, mxr: bool, acc: Access)
    requires EntryWhole(e) && !Filled(e)
    ensures !EntryPermits(e, priv, sum, mxr, acc)
  {
    hide HasV, FlagsMatch, BadPte, LeafPte, MapsAt;
  }

  lemma OkWhole(e: Entry, m: Mem, root: Root)
    requires EntryOk(e, m, root)
    ensures EntryWhole(e)
  {
    hide Load, HasV, HasA, HasD, HasR, HasW, HasX, HasU, Clean, StaleCopy, FlagsMatch, WalkFrom, Misaligned, PhysBase;
    if Filled(e) {
      var w := WalkOf(m, root, e.virtBase);
      WalkLeaf(m, e.virtBase, root.table, Levels(root.mode) - 1);
      StaleClean(e.pte, w.pte);
      SameClean(e.pte, w.pte);
      PhysBaseSame(e.pte, w.pte, e.virtBase, w.level);
      assert MapsAt(e, w.level);
    }
  }

  /** A coherent cache is whole. */
  lemma CoherentWhole(t: seq<Entry>, m: Mem, root: Root)
    requires Coherent(t, m, root)
    ensures Whole(t)
  {
    hide EntryOk, EntryWhole, NoZeroUnlessFull;
    forall k | 0 <= k < |t|
      ensures EntryWhole(t[k])
    {
      OkWhole(t[k], m, root);
    }
  }

  /** The condition under which the cached translation is the uncached one: page 0 is only
      looked up when every slot is in use. */
  predicate PageAllowed(t: seq<Entry>, va: bv64)
  {
    PageOf(va) != 0 || Full(t)
  }

  // ---- A whole cache stays whole, whatever the memory ------------------------------------

  lemma FlushedWhole()
    ensures Whole(FLUSHED)
  {
    hide HasV;
    NothingValid();
  }

  lemma AgedWhole(e: Entry, e': Entry)
    requires e' == e.(age := e'.age)
    ensures EntryWhole(e') == EntryWhole(e) && Filled(e') == Filled(e)
  {
    hide HasV, HasA, HasD, HasR, HasW, HasX, HasU, BadPte, LeafPte, Misaligned, PhysBase;
    assert forall i: Level :: MapsAt(e', i) == MapsAt(e, i);
  }

  lemma TouchWhole(t: seq<Entry>, k: nat)
    requires k < |t| && Whole(t)
    ensures Whole(Touch(t, k))
    ensures Full(Touch(t, k)) == Full(t)
  {
    hide EntryWhole, Filled;
    var t' := Touch(t, k);
    forall j | 0 <= j < |t|
      ensures EntryWhole(t'[j]) && Filled(t'[j]) == Filled(t[j]) && t'[j].virtBase == t[j].virtBase
    {
      AgedWhole(t[j], t'[j]);
    }
  }

  lemma MarkWhole(e: Entry, acc: Access)
    requires EntryWhole(e) && Filled(e)
    ensures EntryWhole(MarkEntry(e, acc)) && Filled(MarkEntry(e, acc))
  {
    hide HasV, HasA, HasD, HasR, HasW, HasX, HasU, Clean, Marked, Misaligned, PhysBase;
    CleanMarked(e.pte, acc);
    SameClean(Marked(e.pte, acc), e.pte);
    var i: Level :| MapsAt(e, i);
    PhysBaseSame(Marked(e.pte, acc), e.pte, e.virtBase, i);
    assert MapsAt(MarkEntry(e, acc), i);
  }

  /** A walk fills in a whole entry. */
  lemma FilledWhole(m: Mem, root: Root, va: bv64)
    requires WalkOf(m, root, va).Leaf?
    ensures var w := WalkOf(m, root, va);
            var e := FilledEntry(va, w.level, w.addr, w.pte);
            EntryWhole(e) && Filled(e)
  {
    hide Load, HasA, HasD, HasR, HasW, HasX, HasU, HasV, PhysBase, PageOf, WalkFrom, Misaligned;
    var w := WalkOf(m, root, va);
    WalkLeaf(m, va, root.table, Levels(root.mode) - 1);
    PhysBaseOfPage(w.pte, va, w.level);
    assert MapsAt(FilledEntry(va, w.level, w.addr, w.pte), w.level);
  }

  /** Page 0 is missed by a full cache only: an empty slot is tagged 0. */
  lemma MissAllowed(t: seq<Entry>, va: bv64)
    requires Whole(t) && Find(t, PageOf(va), 0) == |t|
    ensures PageAllowed(t, va)
  {
    hide HasV, PageOf, FlagsMatch, BadPte, LeafPte, MapsAt;
    if !Full(t) {
      var k :| 0 <= k < |t| && !Filled(t[k]);
      assert EntryWhole(t[k]);
    }
  }

  lemma LookupWhole(t: seq<Entry>, m: Mem, root: Root, va: bv64)
    requires Whole(t) && LookupOf(t, m, root, va).Slot?
    ensures Whole(LookupOf(t, m, root, va).tlb)
  {
    hide HasV, PageOf, WalkOf, Victim, EntryWhole, NoZeroUnlessFull, PageAllowed, FilledEntry;
    var k := Find(t, PageOf(va), 0);
    if k < |t| {
      TouchWhole(t, k);
    } else {
      var v, w := Victim(t), WalkOf(m, root, va);
      var e := FilledEntry(va, w.level, w.addr, w.pte);
      FilledWhole(m, root, va);
      MissAllowed(t, va);
      TouchWhole(t, v);
      FilledTag(va, w.level, w.addr, w.pte);
      SameAllowed(t, v, va);
      NoZeroFill(Touch(t, v), v, e, va);
    }
  }

  lemma SameAllowed(t: seq<Entry>, k: nat, va: bv64)
    requires k < |t| && Whole(t)
    ensures PageAllowed(Touch(t, k), va) == PageAllowed(t, va)
  {
    hide Filled, PageOf, EntryWhole;
    TouchWhole(t, k);
  }

  lemma FinishWhole(t: seq<Entry>, m: Mem, k: nat, c: Ctx, va: bv64, acc: Access)
    requires Whole(t) && k < |t|
    ensures Whole(Finish(t, m, k, c, va, acc).tlb)
  {
    hide HasV, Marked, Store, WithOffset, EntryPermits, NeedsMark, EntryWhole, NoZeroUnlessFull;
    FlushedWhole();
    if EntryPermits(t[k], EffectivePriv(c, acc), c.sum, c.mxr, acc) {
      if !Filled(t[k]) {
        EmptyDenies(t[k], EffectivePriv(c, acc), c.sum, c.mxr, acc);
      }
      MarkWhole(t[k], acc);
      NoZeroUpdate(t, k, MarkEntry(t[k], acc));
    }
  }

  /** A translation keeps the cache whole, with any tables in any memory. */
  lemma ServeWhole(t: seq<Entry>, m: Mem, root: Root, c: Ctx, va: bv64, acc: Access)
    requires Whole(t)
    ensures Whole(Serve(t, m, root, c, va, acc).tlb)
  {
    hide EntryWhole, NoZeroUnlessFull, Finish, LookupOf, Bypass;
    FlushedWhole();
    var l := LookupOf(t, m, root, va);
    if l.Slot? {
      LookupWhole(t, m, root, va);
      FinishWhole(l.tlb, m, l.index, c, va, acc);
    }
  }

  /** The slot that a lookup yields is never writable without being readable, so the first check
      of translate never rejects. */
  lemma NeverWriteOnly(t: seq<Entry>, m: Mem, root: Root, va: bv64)
    requires Whole(t) && LookupOf(t, m, root, va).Slot?
    ensures var l := LookupOf(t, m, root, va); l.tlb[l.index].write ==> l.tlb[l.index].read
  {
    hide HasV, HasA, HasD, HasR, HasW, HasX, HasU, LookupOf, MapsAt;
    assert |t| == TLB_ENTRIES;
    LookupWhole(t, m, root, va);
    var l := LookupOf(t, m, root, va);
    assert EntryWhole(l.tlb[l.index]);
  }

  lemma HitRefines(t: seq<Entry>, m: Mem, root: Root, c: Ctx, va: bv64, acc: Access)
    requires Coherent(t, m, root) && PageAllowed(t, va) && !Bypass(root, c, acc)
    requires Find(t, PageOf(va), 0) < |t|
    ensures var s, r := Serve(t, m, root, c, va, acc), Translate(m, root, c, va, acc);
            s.mem == r.mem && s.pa == r.pa && !s.lost && Coherent(s.tlb, s.mem, root)
  {
    hide Load, Store, Finish, Translate, HasV, PageOf, WalkOf, Bypass, Ready, Current;
    var k := Find(t, PageOf(va), 0);
    var t' := Touch(t, k);
    assert Filled(t[k]) && EntryOk(t[k], m, root);
    TouchOk(t, k, m, root);
    AgedOk(t[k], t'[k], m, root);
    EntryReady(t[k], m, root);
    FinishRefines(t', m, root, k, c, va, acc);
    FinishCoherent(t', m, root, k, c, va, acc);
  }

  /** The cache and the slot after a miss that the walk resolves. */
  function Refilled(t: seq<Entry>, w: Walk, va: bv64): (t': seq<Entry>)
    requires |t| == TLB_ENTRIES && w.Leaf?
    ensures |t'| == TLB_ENTRIES
  {
    Touch(t, Victim(t))[Victim(t) := FilledEntry(va, w.level, w.addr, w.pte)]
  }

  lemma MissServes(t: seq<Entry>, m: Mem, root: Root, c: Ctx, va: bv64, acc: Access)
    requires |t| == TLB_ENTRIES && !Bypass(root, c, acc) && Find(t, PageOf(va), 0) == |t|
    ensures var w := WalkOf(m, root, va);
            Serve(t, m, root, c, va, acc) ==
            if w.Fault? then Served(FLUSHED, m, None, false)
            else Finish(Refilled(t, w, va), m, Victim(t), c, va, acc)
  {
    hide Finish, Touch, Victim, FilledEntry, WalkOf, Bypass, PageOf, Find;
  }

  lemma RefilledReady(t: seq<Entry>, m: Mem, root: Root, va: bv64)
    requires Coherent(t, m, root) && PageAllowed(t, va) && WalkOf(m, root, va).Leaf?
    ensures var v, t' := Victim(t), Refilled(t, WalkOf(m, root, va), va);
            && Ready(t'[v], m, root) && t'[v].virtBase == PageOf(va) && NoZeroUnlessFull(t')
            && forall j | 0 <= j < |t'| && j != v :: EntryOk(t'[j], m, root)
  {
    hide Filled, PageOf, WalkOf, Current, FilledEntry, EntryOk, NoZeroUnlessFull, Victim;
    var v, w := Victim(t), WalkOf(m, root, va);
    var e := FilledEntry(va, w.level, w.addr, w.pte);
    TouchOk(t, v, m, root);
    FilledReady(m, root, va);
    FilledTag(va, w.level, w.addr, w.pte);
    NoZeroFill(Touch(t, v), v, e, va);
  }

  lemma MissRefines(t: seq<Entry>, m: Mem, root: Root, c: Ctx, va: bv64, acc: Access)
    requires Coherent(t, m, root) && PageAllowed(t, va) && !Bypass(root, c, acc)
    requires Find(t, PageOf(va), 0) == |t|
    ensures var s, r := Serve(t, m, root, c, va, acc), Translate(m, root, c, va, acc);
            s.mem == r.mem && s.pa == r.pa && !s.lost && Coherent(s.tlb, s.mem, root)
  {
    hide Serve, Finish, Refilled, PageOf, WalkOf, Bypass, Ready, Permitted, Marked, Store, WithOffset, PhysBase,
      EntryOk, Coherent, NoZeroUnlessFull, Victim, PageAllowed;
    CoherentParts(t, m, root);
    MissServes(t, m, root, c, va, acc);
    FlushedCoherent(m, root);
    if WalkOf(m, root, va).Leaf? {
      var v, t' := Victim(t), Refilled(t, WalkOf(m, root, va), va);
      RefilledReady(t, m, root, va);
      FinishRefines(t', m, root, v, c, va, acc);
      FinishCoherent(t', m, root, v, c, va, acc);
    }
  }

  lemma CoherentParts(t: seq<Entry>, m: Mem, root: Root)
    requires Coherent(t, m, root)
    ensures |t| == TLB_ENTRIES && Entries(t, m, root) && NoZeroUnlessFull(t) && ValidMem(m) && root.table % 8 == 0
  {}

  lemma NoZeroFill(t: seq<Entry>, v: nat, e: Entry, va: bv64)
    requires v < |t| && NoZeroUnlessFull(t) && Filled(e) && e.virtBase == PageOf(va) && PageAllowed(t, va)
    ensures NoZeroUnlessFull(t[v := e])
  {
    hide Filled, PageOf;
    var t' := t[v := e];
    if Full(t) {
      assert forall j | 0 <= j < |t| :: Filled(t[j]);
    }
  }

  /** Page 0 looked up while a slot is empty matches the empty slot, and faults. */
  lemma PageZeroFaults(t: seq<Entry>, m: Mem, root: Root, c: Ctx, va: bv64, acc: Access)
    requires Whole(t) && !PageAllowed(t, va) && !Bypass(root, c, acc)
    ensures Serve(t, m, root, c, va, acc) == Served(FLUSHED, m, None, false)
  {
    hide HasV, PageOf, Bypass, FlagsMatch, BadPte, LeafPte, MapsAt, WalkOf, EntryPermits;
    var k := Find(t, PageOf(va), 0);
    assert k < |t| && EntryWhole(t[k]) && !Filled(t[k]);
    var e := Touch(t, k)[k];
    AgedWhole(t[k], e);
    EmptyDenies(e, EffectivePriv(c, acc), c.sum, c.mxr, acc);
  }

  /** One translation through the cache is the translation the page tables define, and
      leaves the cache coherent; for page 0 with a slot still empty, exactly when the page
      tables fault too. */
  lemma ServeRefines(t: seq<Entry>, m: Mem, root: Root, c: Ctx, va: bv64, acc: Access)
    requires Coherent(t, m, root)
    ensures var s, r := Serve(t, m, root, c, va, acc), Translate(m, root, c, va, acc);
            && Coherent(s.tlb, s.mem, root) && !s.lost
            && (s.mem == r.mem && s.pa == r.pa <==>
                PageAllowed(t, va) || Bypass(root, c, acc) || r.pa.None?)
  {
    hide Coherent, PageAllowed, Find, LookupOf, Finish, WalkOf, PhysBase, Permitted, WithOffset, Marked, Store, Load;
    CoherentParts(t, m, root);
    if Bypass(root, c, acc) {
    } else if PageAllowed(t, va) {
      if Find(t, PageOf(va), 0) < |t| {
        HitRefines(t, m, root, c, va, acc);
      } else {
        MissRefines(t, m, root, c, va, acc);
      }
    } else {
      CoherentWhole(t, m, root);
      PageZeroFaults(t, m, root, c, va, acc);
      FlushedCoherent(m, root);
    }
  }

  // ---- The build without the cache ----------------------------------------------------------

  /** What follows the lookup does not depend on the tag and the age of the slot. */
  lemma FinishIgnoresTag(t: seq<Entry>, m: Mem, k: nat, e: Entry, c: Ctx, va: bv64, acc: Access)
    requires |t| == TLB_ENTRIES && k < TLB_ENTRIES && e == t[k].(virtBase := e.virtBase, age := e.age)
    ensures var s, r := Finish(t, m, k, c, va, acc), Finish(t[k := e], m, k, c, va, acc);
            s.mem == r.mem && s.pa == r.pa && s.lost == r.lost
  {
    hide WithOffset, Store, Marked, EntryPermits;
    PermitsIgnoreTag(t[k], e, EffectivePriv(c, acc), c.sum, c.mxr, acc);
  }

  lemma PermitsIgnoreTag(e: Entry, f: Entry, priv: Priv, sum: bool, mxr: bool, acc: Access)
    requires f == e.(virtBase := f.virtBase, age := f.age)
    ensures EntryPermits(e, priv, sum, mxr, acc) == EntryPermits(f, priv, sum, mxr, acc)
    ensures NeedsMark(e, acc) == NeedsMark(f, acc)
    ensures f.pte == e.pte && f.pteAddr == e.pteAddr && f.physBase == e.physBase
  {}

  /** Walking into slot 0 and then checking and marking it is the translation the page tables
      define, whatever the slots held. */
  lemma DirectTranslates(t: seq<Entry>, m: Mem, root: Root, c: Ctx, va: bv64, acc: Access)
    requires |t| == TLB_ENTRIES && root.table % 8 == 0
    ensures var s, r := ServeDirect(t, m, root, c, va, acc), Translate(m, root, c, va, acc);
            s.mem == r.mem && s.pa == r.pa && !s.lost
  {
    hide Finish, Bypass, WalkOf, FilledEntry, Ready, Permitted, Marked, Store, WithOffset, PhysBase, PageOf;
    var w := WalkOf(m, root, va);
    if !Bypass(root, c, acc) && w.Leaf? {
      var e := FilledEntry(va, w.level, w.addr, w.pte);
      var t' := DirectLookup(t, m, root, va).tlb;
      FilledReady(m, root, va);
      FilledTag(va, w.level, w.addr, w.pte);
      FinishIgnoresTag(t', m, 0, e, c, va, acc);
      FinishRefines(t'[0 := e], m, root, 0, c, va, acc);
    }
  }

  /** What holds between any two translations, in either build. */
  ghost predicate InStep(cached: bool, t: seq<Entry>, m: Mem, root: Root)
  {
    && |t| == TLB_ENTRIES && ValidMem(m) && root.table % 8 == 0
    && (cached ==> Coherent(t, m, root))
  }

  lemma InStepParts(cached: bool, t: seq<Entry>, m: Mem, root: Root)
    requires InStep(cached, t, m, root)
    ensures |t| == TLB_ENTRIES && ValidMem(m) && root.table % 8 == 0
  {
    hide Coherent;
  }

  lemma FlushedInStep(cached: bool, m: Mem, root: Root)
    requires ValidMem(m) && root.table % 8 == 0
    ensures InStep(cached, FLUSHED, m, root)
  {
    hide Coherent;
    FlushedCoherent(m, root);
  }

  lemma FinishKeepsSize(t: seq<Entry>, m: Mem, k: nat, c: Ctx, va: bv64, acc: Access)
    requires |t| == TLB_ENTRIES && k < TLB_ENTRIES && ValidMem(m)
    ensures ValidMem(Finish(t, m, k, c, va, acc).mem)
  {
    hide EntryPermits, NeedsMark, Marked, WithOffset;
  }

  /** Both builds translate as the page tables define; the one with the cache does so exactly when
      the page is not page 0 with a slot empty, or the tables fault too. */
  lemma ServeInRefines(cached: bool, t: seq<Entry>, m: Mem, root: Root, c: Ctx, va: bv64, acc: Access)
    requires InStep(cached, t, m, root)
    ensures var s, r := ServeIn(cached, t, m, root, c, va, acc), Translate(m, root, c, va, acc);
            && InStep(cached, s.tlb, s.mem, root) && !s.lost
            && (s.mem == r.mem && s.pa == r.pa <==>
                !cached || PageAllowed(t, va) || Bypass(root, c, acc) || r.pa.None?)
  {
    hide Coherent, PageAllowed, Serve, LookupOf, FilledEntry, Finish, Translate, WalkOf, Bypass, Find;
    if cached {
      ServeRefines(t, m, root, c, va, acc);
      CoherentParts(Serve(t, m, root, c, va, acc).tlb, Serve(t, m, root, c, va, acc).mem, root);
    } else {
      DirectTranslates(t, m, root, c, va, acc);
      var l := DirectLookup(t, m, root, va);
      if l.Slot? {
        FinishKeepsSize(l.tlb, m, l.index, c, va, acc);
      }
    }
  }

  // ---- Runs -------------------------------------------------------------------------------

  /** What software makes the MMU do: translate an address in some context, rewrite satp or
      execute SFENCE.VMA, or store data. */
  datatype Op =
    | Access(c: Ctx, va: bv64, acc: Access)
    | SetRoot(root: Root)
    | Write(addr: nat, n: nat, v: bv64)

  datatype Cached = Cached(tlb: seq<Entry>, mem: Mem, root: Root)

  datatype Uncached = Uncached(mem: Mem, root: Root)

  function CachedStep(s: Cached, op: Op): (r: (Cached, Option<bv64>))
    requires |s.tlb| == TLB_ENTRIES
    ensures |r.0.tlb| == TLB_ENTRIES
  {
    match op
    case Access(c, va, acc) =>
      var o := Serve(s.tlb, s.mem, s.root, c, va, acc); (Cached(o.tlb, o.mem, s.root), o.pa)
    case SetRoot(root) => (Cached(FLUSHED, s.mem, root), None)
    case Write(a, n, v) => (s.(mem := Store(s.mem, a, n, v)), None)
  }

  function UncachedStep(s: Uncached, op: Op): (Uncached, Option<bv64>)
  {
    match op
    case Access(c, va, acc) =>
      var o := Translate(s.mem, s.root, c, va, acc); (s.(mem := o.mem), o.pa)
    case SetRoot(root) => (s.(root := root), None)
    case Write(a, n, v) => (s.(mem := Store(s.mem, a, n, v)), None)
  }

  /** The final state and the answers, one for each operation. */
  function CachedRun(s: Cached, ops: seq<Op>): (Cached, seq<Option<bv64>>)
    requires |s.tlb| == TLB_ENTRIES
    decreases |ops|
  {
    if ops == [] then (s, [])
    else
      var (s', a) := CachedStep(s, ops[0]);
      var (z, answers) := CachedRun(s', ops[1..]);
      (z, [a] + answers)
  }

  function UncachedRun(s: Uncached, ops: seq<Op>): (Uncached, seq<Option<bv64>>)
    decreases |ops|
  {
    if ops == [] then (s, [])
    else
      var (s', a) := UncachedStep(s, ops[0]);
      var (z, answers) := UncachedRun(s', ops[1..]);
      (z, [a] + answers)
  }

  /** What software must respect: no store overlaps a PTE that the walk of a cached page
      reads (it must fence first), tables are aligned, and page 0, if it is mapped at all, waits
      for a full cache. */
  predicate Allowed(s: Cached, op: Op)
  {
    match op
    case Access(c, va, acc) =>
      PageAllowed(s.tlb, va) || Bypass(s.root, c, acc) || Translate(s.mem, s.root, c, va, acc).pa.None?
    case SetRoot(root) => root.table % 8 == 0
    case Write(a, n, v) =>
      forall k | 0 <= k < |s.tlb| :: Filled(s.tlb[k]) ==> Disjoint(PathOf(s.mem, s.root, s.tlb[k].virtBase), a, n)
  }

  predicate AllowedRun(s: Cached, ops: seq<Op>)
    requires |s.tlb| == TLB_ENTRIES
    decreases |ops|
  {
    ops == [] || (Allowed(s, ops[0]) && AllowedRun(CachedStep(s, ops[0]).0, ops[1..]))
  }

  lemma CoherentAfterWrite(t: seq<Entry>, m: Mem, root: Root, a: nat, n: nat, v: bv64)
    requires Coherent(t, m, root) && Allowed(Cached(t, m, root), Write(a, n, v))
    ensures Coherent(t, Store(m, a, n, v), root)
  {
    hide Store, WalkFrom, Path, HasV, HasA, HasD, HasR, HasW, HasX, HasU, PhysBase, StaleCopy, FlagsMatch;
    var m' := Store(m, a, n, v);
    forall k | 0 <= k < |t|
      ensures EntryOk(t[k], m', root)
    {
      assert EntryOk(t[k], m, root);
      if Filled(t[k]) {
        WalkAfterStore(m, t[k].virtBase, root.table, Levels(root.mode) - 1, a, n, v);
      }
    }
  }

  lemma InStepAfterWrite(cached: bool, t: seq<Entry>, m: Mem, root: Root, a: nat, n: nat, v: bv64)
    requires InStep(cached, t, m, root) && (cached ==> Allowed(Cached(t, m, root), Write(a, n, v)))
    ensures InStep(cached, t, Store(m, a, n, v), root)
  {
    hide Coherent, Allowed;
    if cached {
      CoherentAfterWrite(t, m, root, a, n, v);
    }
  }

  lemma StepRefines(s: Cached, op: Op)
    requires Coherent(s.tlb, s.mem, s.root) && Allowed(s, op)
    ensures var (s', a) := CachedStep(s, op);
            UncachedStep(Uncached(s.mem, s.root), op) == (Uncached(s'.mem, s'.root), a)
            && Coherent(s'.tlb, s'.mem, s'.root)
  {
    hide Coherent, Serve, Translate, Store, Filled, Disjoint, Bypass, PageAllowed;
    CoherentParts(s.tlb, s.mem, s.root);
    match op
    case Access(c, va, acc) => ServeRefines(s.tlb, s.mem, s.root, c, va, acc);
    case SetRoot(root) => FlushedCoherent(s.mem, root);
    case Write(a, n, v) => CoherentAfterWrite(s.tlb, s.mem, s.root, a, n, v);
  }

  /** Over every run the emulator built with the cache gives the answers, and leaves the
      memory, of the emulator built without it. */
  lemma {:induction false} RunRefines(s: Cached, ops: seq<Op>)
    requires Coherent(s.tlb, s.mem, s.root) && AllowedRun(s, ops)
    ensures var (z, answers) := CachedRun(s, ops);
            UncachedRun(Uncached(s.mem, s.root), ops) == (Uncached(z.mem, z.root), answers)
            && Coherent(z.tlb, z.mem, z.root)
    decreases |ops|
  {
    hide Coherent, CachedStep, UncachedStep, Allowed;
    CoherentParts(s.tlb, s.mem, s.root);
    if ops != [] {
      StepRefines(s, ops[0]);
      RunRefines(CachedStep(s, ops[0]).0, ops[1..]);
    }
  }
}
