/** The aging array replaces translations in exact least-recently-used order. */
module Lru {
  import opened Memory
  import opened Pte
  import opened PageTable
  import opened Tlb

  /** More lookups than this between two flushes would let the age of an empty slot wrap. */
  const MAX_LOOKUPS := TWO64 - RESET_AGE - 1

  // ---- Aging in general -------------------------------------------------------------

  datatype Slot<P> = Empty(age: nat) | Holds(page: P, age: nat)

  function Older<P>(s: Slot<P>): Slot<P>
  {
    s.(age := Bump(s.age))
  }

  /** Page `p` is used through slot `k`. */
  function Use<P>(s: seq<Slot<P>>, k: nat, p: P): (s': seq<Slot<P>>)
    requires k < |s|
    ensures |s'| == |s| && s'[k] == Holds(p, 0)
    ensures forall j | 0 <= j < |s| && j != k :: s'[j] == Older(s[j])
  {
    seq(|s|, j requires 0 <= j < |s| => if j == k then Holds(p, 0) else Older(s[j]))
  }

  function SlotAges<P>(s: seq<Slot<P>>): (a: seq<nat>)
    ensures |a| == |s| && forall j | 0 <= j < |s| :: a[j] == s[j].age
  {
    seq(|s|, j requires 0 <= j < |s| => s[j].age)
  }

  /** The position of the last use of `p` in a trace of page uses. */
  function LastUse<P(==)>(trace: seq<P>, p: P): (i: nat)
    requires p in trace
    ensures i < |trace| && trace[i] == p
    ensures forall j | i < j < |trace| :: trace[j] != p
  {
    var n := |trace| - 1;
    if trace[n] == p then n
    else
      assert p in trace[..n];
      LastUse(trace[..n], p)
  }

  lemma LastUseAppend<P>(trace: seq<P>, p: P, q: P)
    requires q in trace + [p]
    ensures q != p ==> q in trace
    ensures LastUse(trace + [p], q) == if q == p then |trace| else LastUse(trace, q)
  {
    assert (trace + [p])[..|trace|] == trace;
  }

  predicate Resident<P(==)>(s: seq<Slot<P>>, p: P)
  {
    exists k :: 0 <= k < |s| && s[k].Holds? && s[k].page == p
  }

  /** `trace` lists the pages used since the last flush, oldest first. The age of a slot is
      the number of lookups since its page was used; empty slots are older than any other;
      no page is held twice; and no page outside was used after one inside. */
  ghost predicate ExactLru<P>(s: seq<Slot<P>>, trace: seq<P>)
  {
    AgesExact(s, trace) && NoTwins(s) && OutsideOlder(s, trace)
  }

  ghost predicate AgesExact<P>(s: seq<Slot<P>>, trace: seq<P>)
  {
    forall k | 0 <= k < |s| :: AgeExact(s[k], trace)
  }

  ghost predicate AgeExact<P>(x: Slot<P>, trace: seq<P>)
  {
    match x
    case Holds(p, age) => p in trace && age == |trace| - 1 - LastUse(trace, p)
    case Empty(age) => age == RESET_AGE + |trace|
  }

  ghost predicate NoTwins<P>(s: seq<Slot<P>>)
  {
    forall j, k | 0 <= j < k < |s| && s[j].Holds? && s[k].Holds? :: s[j].page != s[k].page
  }

  ghost predicate OutsideOlder<P>(s: seq<Slot<P>>, trace: seq<P>)
  {
    forall q, k | q in trace && !Resident(s, q) && 0 <= k < |s| :: UsedAfter(s[k], trace, q)
  }

  ghost predicate UsedAfter<P>(x: Slot<P>, trace: seq<P>, q: P)
    requires q in trace
  {
    x.Holds? && x.page in trace && LastUse(trace, q) < LastUse(trace, x.page)
  }

  /** The slot that a use of page `p` goes through. */
  ghost predicate Chosen<P>(s: seq<Slot<P>>, k: nat, p: P)
  {
    k < |s| && if s[k].Holds? && s[k].page == p then true else k == Oldest(SlotAges(s), |s|) && !Resident(s, p)
  }

  lemma YoungerUsedAfter<P>(x: Slot<P>, y: Slot<P>, trace: seq<P>)
    requires AgeExact(x, trace) && AgeExact(y, trace) && y.Holds? && |trace| < MAX_LOOKUPS
    requires Bump(x.age) <= Bump(y.age) && (x.Holds? ==> x.page != y.page)
    ensures UsedAfter(x, trace, y.page)
  {
    hide LastUse;
  }

  lemma EmptyUsedNever<P>(s: seq<Slot<P>>, v: nat, trace: seq<P>)
    requires OutsideOlder(s, trace) && v < |s| && s[v].Empty?
    ensures forall q | q in trace :: Resident(s, q)
  {
    forall q | q in trace
      ensures Resident(s, q)
    {
      assert !UsedAfter(s[v], trace, q);
    }
  }

  /** The slot that a miss replaces: an empty one while there is one, otherwise the one
      whose page was used least recently. */
  lemma VictimIsOldest<P>(s: seq<Slot<P>>, trace: seq<P>)
    requires |s| > 0 && ExactLru(s, trace) && |trace| < MAX_LOOKUPS
    ensures var v := Oldest(SlotAges(s), |s|);
            if s[v].Empty? then forall q | q in trace :: Resident(s, q)
            else s[v].page in trace && forall k | 0 <= k < |s| && k != v :: UsedAfter(s[k], trace, s[v].page)
  {
    hide Resident, LastUse, UsedAfter;
    var a := SlotAges(s);
    var v := Oldest(a, |s|);
    assert AgeExact(s[v], trace);
    if s[v].Holds? {
      forall k | 0 <= k < |s| && k != v
        ensures UsedAfter(s[k], trace, s[v].page)
      {
        assert AgeExact(s[k], trace);
        assert Bump(a[k]) <= Bump(a[v]);
        YoungerUsedAfter(s[k], s[v], trace);
      }
    } else {
      EmptyUsedNever(s, v, trace);
    }
  }

  lemma AgeStep<P>(x: Slot<P>, trace: seq<P>, p: P)
    requires AgeExact(x, trace) && |trace| < MAX_LOOKUPS
    requires x.Holds? ==> x.page != p
    ensures AgeExact(Older(x), trace + [p])
  {
    if x.Holds? {
      LastUseAppend(trace, p, x.page);
    }
  }

  lemma AgeReset<P>(trace: seq<P>, p: P)
    ensures AgeExact(Holds(p, 0), trace + [p])
  {
    LastUseAppend(trace, p, p);
  }

  /** A page held outside slot `k` stays held. */
  lemma StaysResident<P>(s: seq<Slot<P>>, k: nat, p: P, q: P)
    requires k < |s|
    ensures q == p || (Resident(s, q) && !(s[k].Holds? && s[k].page == q)) ==> Resident(Use(s, k, p), q)
  {
    var s' := Use(s, k, p);
    assert s'[k].Holds? && s'[k].page == p;
    if Resident(s, q) && !(s[k].Holds? && s[k].page == q) {
      var i :| 0 <= i < |s| && s[i].Holds? && s[i].page == q;
      assert s'[i].Holds? && s'[i].page == q;
    }
  }

  /** Pages other than `p` are not held by any slot but `k`. */
  lemma NoOther<P>(s: seq<Slot<P>>, k: nat, p: P)
    requires Chosen(s, k, p) && NoTwins(s)
    ensures forall j | 0 <= j < |s| && j != k && s[j].Holds? :: s[j].page != p
  {
    hide Oldest;
  }

  lemma OutsideStep<P>(s: seq<Slot<P>>, trace: seq<P>, k: nat, p: P, q: P, j: nat)
    requires ExactLru(s, trace) && |trace| < MAX_LOOKUPS && Chosen(s, k, p) && j < |s|
    requires q in trace + [p] && !Resident(Use(s, k, p), q)
    ensures UsedAfter(Use(s, k, p)[j], trace + [p], q)
  {
    hide Oldest, AgesExact, NoTwins, Resident, Use, ExactLru;
    assert OutsideOlder(s, trace) by { Parts(s, trace); }
    StaysResident(s, k, p, q);
    VictimIsOldest(s, trace);
    LastUseAppend(trace, p, q);
    LastUseAppend(trace, p, p);
    if j != k {
      assert UsedAfter(s[j], trace, q);
      LastUseAppend(trace, p, s[j].page);
    }
  }

  lemma Parts<P>(s: seq<Slot<P>>, trace: seq<P>)
    requires ExactLru(s, trace)
    ensures AgesExact(s, trace) && NoTwins(s) && OutsideOlder(s, trace)
  {}

  /** Using a held page, or a new page through the victim slot, keeps the order exact. */
  lemma UseKeepsLru<P>(s: seq<Slot<P>>, trace: seq<P>, k: nat, p: P)
    requires ExactLru(s, trace) && |trace| < MAX_LOOKUPS && Chosen(s, k, p)
    ensures ExactLru(Use(s, k, p), trace + [p])
  {
    hide Oldest, Resident, UsedAfter, AgeExact;
    NoOther(s, k, p);
    var s', trace' := Use(s, k, p), trace + [p];
    forall j | 0 <= j < |s|
      ensures AgeExact(s'[j], trace')
    {
      if j == k {
        AgeReset(trace, p);
      } else {
        assert AgeExact(s[j], trace);
        AgeStep(s[j], trace, p);
      }
    }
    forall q, j | q in trace' && !Resident(s', q) && 0 <= j < |s'|
      ensures UsedAfter(s'[j], trace', q)
    {
      OutsideStep(s, trace, k, p, q, j);
    }
  }

  // ---- The translation cache ----------------------------------------------------------

  function SlotsOf(t: seq<Entry>): (s: seq<Slot<bv64>>)
    ensures |s| == |t|
    ensures forall k | 0 <= k < |t| :: s[k] == if Filled(t[k]) then Holds(t[k].virtBase, t[k].age) else Empty(t[k].age)
  {
    seq(|t|, k requires 0 <= k < |t| => if Filled(t[k]) then Holds(t[k].virtBase, t[k].age) else Empty(t[k].age))
  }

  lemma SlotsAfterTouch(t: seq<Entry>, k: nat, e: Entry)
    requires k < |t| && Filled(e) && e.age == 0
    ensures SlotsOf(Touch(t, k)[k := e]) == Use(SlotsOf(t), k, e.virtBase)
  {
    hide HasV;
    var t' := Touch(t, k)[k := e];
    forall j | 0 <= j < |t|
      ensures SlotsOf(t')[j] == Use(SlotsOf(t), k, e.virtBase)[j]
    {
      if j != k {
        assert t'[j] == Aged(t[j]);
      }
    }
  }

  lemma AgesOfSlots(t: seq<Entry>)
    ensures SlotAges(SlotsOf(t)) == Ages(t)
  {}

  lemma FlushedLru()
    ensures ExactLru(SlotsOf(FLUSHED), [])
  {
    assert !Filled(EMPTY);
  }

  /** The slot a lookup uses, when it finds or makes a translation. */
  lemma LookupUse(t: seq<Entry>, m: Mem, root: Root, va: bv64)
    requires Whole(t) && PageAllowed(t, va) && LookupOf(t, m, root, va).Slot?
    ensures var l := LookupOf(t, m, root, va);
            && Chosen(SlotsOf(t), l.index, PageOf(va))
            && SlotsOf(l.tlb) == Use(SlotsOf(t), l.index, PageOf(va))
            && Filled(l.tlb[l.index])
  {
    hide HasV, PageOf, WalkOf, FilledEntry, FlagsMatch, BadPte, LeafPte, MapsAt, Oldest;
    var k := Find(t, PageOf(va), 0);
    if k < |t| {
      assert EntryWhole(t[k]) && Filled(t[k]);
      var t' := Touch(t, k);
      assert t'[k := t'[k]] == t';
      SlotsAfterTouch(t, k, t'[k]);
    } else {
      var w := WalkOf(m, root, va);
      var e := FilledEntry(va, w.level, w.addr, w.pte);
      FilledWhole(m, root, va);
      FilledTag(va, w.level, w.addr, w.pte);
      assert !Resident(SlotsOf(t), PageOf(va));
      AgesOfSlots(t);
      SlotsAfterTouch(t, Victim(t), e);
    }
  }

  lemma FinishSlots(t: seq<Entry>, m: Mem, k: nat, c: Ctx, va: bv64, acc: Access)
    requires |t| == TLB_ENTRIES && k < TLB_ENTRIES
    ensures var s := Finish(t, m, k, c, va, acc);
            if s.pa.Some? then SlotsOf(s.tlb) == SlotsOf(t) else s.tlb == FLUSHED
  {
    hide HasV, Marked, EntryPermits, Store;
    MarkedFlags(t[k].pte, acc);
    var s := Finish(t, m, k, c, va, acc);
    if s.pa.Some? {
      assert forall j | 0 <= j < |t| :: SlotsOf(s.tlb)[j] == SlotsOf(t)[j];
    }
  }

  /** The pages used since the last flush, after one more operation. */
  function NextTrace(trace: seq<bv64>, s: Cached, op: Op): seq<bv64>
    requires |s.tlb| == TLB_ENTRIES
  {
    match op
    case Access(c, va, acc) =>
      if Bypass(s.root, c, acc) then trace
      else if Serve(s.tlb, s.mem, s.root, c, va, acc).pa.None? then []
      else trace + [PageOf(va)]
    case SetRoot(_) => []
    case Write(_, _, _) => trace
  }

  /** One translation: a lookup that succeeds is a use of its page, a fault flushes. */
  lemma ServeLru(t: seq<Entry>, m: Mem, root: Root, c: Ctx, va: bv64, acc: PageTable.Access, trace: seq<bv64>)
    requires Whole(t) && ExactLru(SlotsOf(t), trace) && !Bypass(root, c, acc)
    requires Serve(t, m, root, c, va, acc).pa.Some? ==> |trace| < MAX_LOOKUPS
    ensures var s := Serve(t, m, root, c, va, acc);
            ExactLru(SlotsOf(s.tlb), if s.pa.None? then [] else trace + [PageOf(va)])
  {
    hide ExactLru, EntryWhole, Finish, PageAllowed, Bypass, LookupOf, Chosen, PageOf, NoZeroUnlessFull;
    FlushedLru();
    if PageAllowed(t, va) {
      var l := LookupOf(t, m, root, va);
      if l.Slot? {
        LookupUse(t, m, root, va);
        FinishSlots(l.tlb, m, l.index, c, va, acc);
        if Serve(t, m, root, c, va, acc).pa.Some? {
          UseKeepsLru(SlotsOf(t), trace, l.index, PageOf(va));
        }
      }
    } else {
      PageZeroFaults(t, m, root, c, va, acc);
    }
  }

  /** One operation, with any tables in any memory. */
  lemma StepLru(s: Cached, trace: seq<bv64>, op: Op)
    requires Whole(s.tlb) && ExactLru(SlotsOf(s.tlb), trace) && |NextTrace(trace, s, op)| <= MAX_LOOKUPS
    ensures ExactLru(SlotsOf(CachedStep(s, op).0.tlb), NextTrace(trace, s, op)) && Whole(CachedStep(s, op).0.tlb)
  {
    hide ExactLru, EntryWhole, NoZeroUnlessFull, Store, Serve, Bypass, PageOf;
    FlushedLru();
    FlushedWhole();
    match op
    case Access(c, va, acc) =>
      ServeWhole(s.tlb, s.mem, s.root, c, va, acc);
      BypassedServe(s.tlb, s.mem, s.root, c, va, acc);
      if !Bypass(s.root, c, acc) {
        ServeLru(s.tlb, s.mem, s.root, c, va, acc, trace);
      }
    case SetRoot(_) =>
    case Write(_, _, _) =>
  }

  lemma BypassedServe(t: seq<Entry>, m: Mem, root: Root, c: Ctx, va: bv64, acc: PageTable.Access)
    requires |t| == TLB_ENTRIES
    ensures Bypass(root, c, acc) ==> Serve(t, m, root, c, va, acc).tlb == t
  {
    hide Bypass, LookupOf, Finish;
  }

  function TraceOf(trace: seq<bv64>, s: Cached, ops: seq<Op>): seq<bv64>
    requires |s.tlb| == TLB_ENTRIES
    decreases |ops|
  {
    if ops == [] then trace
    else TraceOf(NextTrace(trace, s, ops[0]), CachedStep(s, ops[0]).0, ops[1..])
  }

  /** At no point of the run have there been more than MAX_LOOKUPS lookups since a flush. */
  ghost predicate LookupsBounded(trace: seq<bv64>, s: Cached, ops: seq<Op>)
    requires |s.tlb| == TLB_ENTRIES
    decreases |ops|
  {
    |trace| <= MAX_LOOKUPS &&
    (ops == [] || LookupsBounded(NextTrace(trace, s, ops[0]), CachedStep(s, ops[0]).0, ops[1..]))
  }

  /** Over every run, of any accesses, stores and roots, the cache holds its pages in exact
      least-recently-used order. */
  lemma {:induction false} RunLru(s: Cached, trace: seq<bv64>, ops: seq<Op>)
    requires Whole(s.tlb) && ExactLru(SlotsOf(s.tlb), trace) && LookupsBounded(trace, s, ops)
    ensures ExactLru(SlotsOf(CachedRun(s, ops).0.tlb), TraceOf(trace, s, ops))
    decreases |ops|
  {
    hide ExactLru, CachedStep, NextTrace, EntryWhole, NoZeroUnlessFull;
    if ops != [] {
      assert LookupsBounded(NextTrace(trace, s, ops[0]), CachedStep(s, ops[0]).0, ops[1..]);
      StepLru(s, trace, ops[0]);
      RunLru(CachedStep(s, ops[0]).0, NextTrace(trace, s, ops[0]), ops[1..]);
    }
  }

  function Pages<P(==)>(trace: seq<P>): set<P>
  {
    set p | p in trace
  }

  function Held<P(==)>(s: seq<Slot<P>>, trace: seq<P>): set<P>
  {
    set p | p in trace && Resident(s, p)
  }

  /** Exact order means: the cache holds the most recently used distinct pages, as many as
      there are slots (or all of them, if fewer were used). */
  lemma HeldAreMostRecent<P>(s: seq<Slot<P>>, trace: seq<P>)
    requires |s| == TLB_ENTRIES && ExactLru(s, trace)
    ensures |Held(s, trace)| == if |Pages(trace)| < TLB_ENTRIES then |Pages(trace)| else TLB_ENTRIES
    ensures forall p, q | p in Held(s, trace) && q in Pages(trace) - Held(s, trace) ::
              LastUse(trace, q) < LastUse(trace, p)
  {
    hide LastUse;
    assert |s| == 4;
    assert forall k | 0 <= k < 4 :: AgeExact(s[k], trace);
    if forall k | 0 <= k < 4 :: s[k].Holds? {
      var h := {s[0].page, s[1].page, s[2].page, s[3].page};
      assert forall k | 0 <= k < 4 :: s[k].page in h && Resident(s, s[k].page);
      assert Held(s, trace) == h;
      assert |h| == 4;
      assert h <= Pages(trace);
      SubsetSize(h, Pages(trace));
    } else {
      var k :| 0 <= k < 4 && s[k].Empty?;
      EmptyUsedNever(s, k, trace);
      assert Held(s, trace) == Pages(trace);
      AtMostFour(s, trace);
    }
  }

  lemma SubsetSize<P>(a: set<P>, b: set<P>)
    requires a <= b
    ensures |a| <= |b|
  {
    if a != {} {
      var x :| x in a;
      SubsetSize(a - {x}, b - {x});
    }
  }

  lemma AtMostFour<P>(s: seq<Slot<P>>, trace: seq<P>)
    requires |s| == 4
    ensures |Held(s, trace)| <= 4
  {
    if trace != [] {
      var d := trace[0];
      var x := seq(4, k requires 0 <= k < 4 => if s[k].Holds? then s[k].page else d);
      var b := {x[0], x[1], x[2], x[3]};
      assert |b| <= 4;
      forall p | p in Held(s, trace)
        ensures p in b
      {
        var k :| 0 <= k < |s| && s[k].Holds? && s[k].page == p;
        assert x[k] == p;
      }
      SubsetSize(Held(s, trace), b);
    } else {
      assert Held(s, trace) == {};
    }
  }
}
