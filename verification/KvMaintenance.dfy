/**
 `ialloc_maintenance`: after recycling, the walk over the segment being cleaned, which queues the items
 that are still referenced; and the exact condition under which a call leaves the walk on its feet.
 */
module KvMaintenance {
  import opened Basics
  import opened KvTable
  import opened KvLog
  import opened KvInvariant
  import opened KvCore
  import opened KvAlloc
  import opened KvWalk
  import opened KvStore
  import opened KvIalloc
  import opened KvRecycle

  // ---- starting on a segment ----

  /** Core c starts on cand, or on nothing. */
  function Started(g: Alloc, c: int, cand: Option<SegId>): Alloc
    requires 0 <= c < |g.ias|
  {
    var ias := g.ias[c := g.ias[c].(cleaning := cand, cleanOffset := 0)];
    if cand.Some? && cand.value in g.m.segs
    then g.(m := g.m.(segs := g.m.segs[cand.value := g.m.segs[cand.value].(cleaned := true)]), ias := ias)
    else g.(ias := ias)
  }

  lemma StartedMemory(heap: Heap, m: Memory, s: SegId)
    requires MemoryOk(heap, m) && s in m.segs
    ensures MemoryOk(heap, m.(segs := m.segs[s := m.segs[s].(cleaned := true)]))
  {
    var m' := m.(segs := m.segs[s := m.segs[s].(cleaned := true)]);
    forall x: SegId ensures SegOk(heap, m', x) {
      assert SegOk(heap, m, x);
      if x == s && m.owner[x] != Free { LogFrame(heap, heap, m.segs[x], m'.segs[x], x, m.logs[x]); }
    }
    forall a: Addr ensures AddrOk(heap, m', a) { assert AddrOk(heap, m, a); }
  }

  /** The start of a closed segment is an item boundary. */
  lemma StartTile(heap: Heap, m: Memory, s: SegId)
    requires MemoryOk(heap, m) && s in m.segs && s in m.owner && m.owner[s] != Free && m.segs[s].inactive
    ensures s in m.logs && AtTile(m.segs[s], m.logs[s], 0)
  {
    assert SegOk(heap, m, s);
    if m.logs[s] != [] { assert TileOk(heap, m.segs[s], s, m.logs[s], 0) && m.logs[s][0] in m.logs[s]; }
  }

  lemma StartedOk(s: Core, g: Alloc, lim: Limits, c: int, cand: Option<SegId>)
    requires CoreOk(s, lim.hash) && g.m == s.m && Ok(g) && Tidy(s.heap, s.m, g.ias, lim) && 0 <= c < |g.ias|
    requires cand.Some? ==> cand.value in g.m.segs && cand.value in g.m.owner && g.m.owner[cand.value] == InChain(c) && g.m.segs[cand.value].inactive
    ensures var g' := Started(g, c, cand);
            CoreOk(s.(m := g'.m), lim.hash) && Ok(g') && Tidy(s.heap, g'.m, g'.ias, lim)
  {
    hide TableOk, RefsOk, MemoryOk, AllocOk;
    var g' := Started(g, c, cand);
    if cand.Some? {
      StartedMemory(s.heap, s.m, cand.value);
      StartTile(s.heap, s.m, cand.value);
      ClosedAlloc(g, g.(m := g'.m), cand.value);
    }
    forall x: SegId ensures SameHeader(g'.m, g'.m, x) { }
    AllocFrame(g'.m, g'.m, g.ias, g'.ias, g.pools, g.freeHead, g.alloced);
    forall x: SegId ensures HeaderOk(g'.m.segs, lim, x) { assert HeaderOk(g.m.segs, lim, x); }
    forall d: int ensures WalkOk(g'.m, g'.ias, d) { assert WalkOk(g.m, g.ias, d); }
  }

  method StartCleaning(st: KvStore, c: int, cand: Option<SegId>)
    requires st.Valid() && 0 <= c < |st.ias|
    requires cand.Some? ==> cand.value in st.segs && cand.value in st.owner && st.owner[cand.value] == InChain(c) && st.segs[cand.value].inactive
    modifies st`segs, st`ias
    ensures st.Valid() && st.ias == old(st.ias)[c := old(st.ias)[c].(cleaning := cand, cleanOffset := 0)]
    ensures st.segs.Keys == old(st.segs).Keys && st.G() == Started(old(st.G()), c, cand)
    ensures cand.Some? ==> cand.value in st.segs && st.segs == old(st.segs)[cand.value := old(st.segs)[cand.value].(cleaned := true)]
  {
    hide CoreOk, AllocOk, Tidy;
    ghost var s, g := st.C(), st.G();
    StartedOk(s, g, st.Lim(), c, cand);
    st.ias := st.ias[c := st.ias[c].(cleaning := cand, cleanOffset := 0)];
    if cand.Some? {
      st.segs := st.segs[cand.value := st.segs[cand.value].(cleaned := true)];
    }
    assert st.M() == Started(g, c, cand).m && st.ias == Started(g, c, cand).ias;
  }

  // ---- the walk ----

  /** The addresses, among those of the given offsets, of items that are referenced. */
  function Referenced(heap: Heap, s: SegId, offs: Log): seq<Addr> {
    if offs == [] then []
    else
      var a := Addr(s, offs[|offs| - 1]);
      Referenced(heap, s, offs[..|offs| - 1]) + if a in heap && heap[a].refcount > 0 then [a] else []
  }

  /** The walk stands at the k-th item, or past the last one. */
  ghost predicate AtIndex(seg: Segment, log: Log, off: int, k: int) {
    && 0 <= k <= |log| && (k < |log| ==> off == log[k])
    && (k == |log| ==> off == seg.size - seg.filler || off == seg.size)
  }

  lemma TileIndex(seg: Segment, log: Log, off: int)
    requires AtTile(seg, log, off)
    ensures AtIndex(seg, log, off, IndexFrom(log, off))
  {
  }

  lemma IndexTile(seg: Segment, log: Log, off: int, k: int)
    requires AtIndex(seg, log, off, k)
    ensures AtTile(seg, log, off)
  {
  }

  /** In memory mem the closed segment s holds exactly the items of its log. */
  ghost predicate Walkable(mem: Heap, seg: Segment, s: SegId, log: Log) {
    LogOk(mem, seg, s, log) && seg.inactive && forall off :: Addr(s, off) in mem ==> off in log
  }

  /** One step of the walk goes from an item to the next; from the filler it goes to the end exactly when the filler's length fits. */
  lemma WalkStep(mem: Heap, seg: Segment, s: SegId, log: Log, off: int, k: int)
    requires Walkable(mem, seg, s, log) && AtIndex(seg, log, off, k) && off < seg.size
    ensures k < |log| ==> Addr(s, off) in mem && seg.size - off >= ITEM_HEADER && AtIndex(seg, log, off + TotalSize(mem[Addr(s, off)]), k + 1)
    ensures k == |log| ==>
              && Addr(s, off) !in mem && seg.size - off == seg.filler
              && (seg.filler >= ITEM_HEADER ==> (off + ITEM_HEADER + FillerKeyLen(seg.filler) == seg.size <==> FillerFits(seg.filler)))
  {
    if k < |log| {
      assert TileOk(mem, seg, s, log, k);
      LogBounds(mem, seg, s, log, k);
    } else if Addr(s, off) in mem {
      LogBounds(mem, seg, s, log, IndexOf(log, off));
    }
  }

  lemma IndexBelow(mem: Heap, seg: Segment, s: SegId, log: Log, off: int, k: int)
    requires Walkable(mem, seg, s, log) && AtIndex(seg, log, off, k)
    ensures off <= seg.size
  {
    if k < |log| { LogBounds(mem, seg, s, log, k); }
  }

  /** What memory holds at a: the item there now, or what was there before its segment was recycled. */
  function Peek(heap: Heap, mem: Heap, a: Addr): Option<Item> {
    if a in heap then Some(heap[a]) else if a in mem then Some(mem[a]) else None
  }

  /** Memory at an address of segment h, live or recycled since mem was read: recycling frees only dead items and writes none. */
  ghost predicate BytesAt(mem: Heap, heap: Heap, live: bool, h: SegId, a: Addr) {
    a.seg == h ==>
      if a !in mem then a !in heap
      else if live then a in heap && TotalSize(heap[a]) == TotalSize(mem[a]) && (heap[a].refcount > 0 <==> mem[a].refcount > 0)
      else a !in heap && mem[a].refcount == 0
  }

  lemma BytesFrame(mem: Heap, heap: Heap, heap': Heap, live: bool, h: SegId)
    requires forall a: Addr :: BytesAt(mem, heap, live, h, a)
    requires forall a: Addr :: SameShape(heap, heap', a)
    ensures forall a: Addr :: BytesAt(mem, heap', live, h, a)
  {
    forall a: Addr ensures BytesAt(mem, heap', live, h, a) { assert BytesAt(mem, heap, live, h, a) && SameShape(heap, heap', a); }
  }

  /** `item_tryref`, and the item goes to the end of the queue if that took a reference. */
  method TryQueue(st: KvStore, c: int, a: Addr)
    requires st.Valid() && 0 <= c < |st.ias| && a in st.heap && st.heap[a].refcount > 0
    modifies st`heap, st`held, st`ias
    ensures st.Valid() && st.View() == old(st.View())
    ensures forall x: Addr :: SameShape(old(st.heap), st.heap, x)
    ensures st.ias == old(st.ias)[c := old(st.ias)[c].(queue := old(st.ias)[c].queue + [a])] && st.held == old(st.held) + multiset{a}
  {
    hide KvStore.Valid, CoreOk, AllocOk, Tidy, ValuesOf;
    ghost var heap0 := st.heap;
    st.ItemRef(a);
    SameItemsValues(heap0, st.heap, st.keys);
    st.SetWork(c, st.ias[c].queue + [a], st.ias[c].cleanupCount);
  }

  /** Where core c's walk of segment h has got to: at index k, having queued the referenced items from index k0 on. */
  ghost predicate Walked(mem: Heap, log: Log, s0: Core, ias0: seq<Allocator>, s: Core, ias: seq<Allocator>, c: int, h: SegId, k0: int, k: int) {
    && 0 <= c < |ias0| && 0 <= k0 <= k <= |log|
    && (forall a: Addr :: SameShape(s0.heap, s.heap, a))
    && (var taken := Referenced(mem, h, log[k0..k]);
        ias == ias0[c := ias0[c].(queue := ias0[c].queue + taken)] && s.held == s0.held + multiset(taken))
    && s.m == s0.m
  }

  lemma WalkedStart(mem: Heap, log: Log, s: Core, ias: seq<Allocator>, c: int, h: SegId, k: int)
    requires 0 <= c < |ias| && 0 <= k <= |log|
    ensures Walked(mem, log, s, ias, s, ias, c, h, k, k)
  {
    assert log[k..k] == [] && ias[c].queue + [] == ias[c].queue;
  }

  lemma WalkedStep(mem: Heap, log: Log, s0: Core, ias0: seq<Allocator>, s: Core, ias: seq<Allocator>, s': Core, ias': seq<Allocator>,
                   c: int, h: SegId, k0: int, k: int, taken: seq<Addr>)
    requires Walked(mem, log, s0, ias0, s, ias, c, h, k0, k) && k < |log| && s'.m == s.m
    requires var a := Addr(h, log[k]); a in mem && taken == if mem[a].refcount > 0 then [a] else []
    requires forall x: Addr :: SameShape(s.heap, s'.heap, x)
    requires ias' == ias[c := ias[c].(queue := ias[c].queue + taken)] && s'.held == s.held + multiset(taken)
    ensures Walked(mem, log, s0, ias0, s', ias', c, h, k0, k + 1)
  {
    ReferencedStep(mem, h, log, k0, k);
    ShapeTransitive(s0.heap, s.heap, s'.heap);
    hide SameShape, Referenced;
    QueueGrows(ias0, ias, ias', s0.held, s.held, s'.held, c, Referenced(mem, h, log[k0..k]), taken);
  }

  lemma ShapeTransitive(h1: Heap, h2: Heap, h3: Heap)
    requires forall x: Addr :: SameShape(h1, h2, x)
    requires forall x: Addr :: SameShape(h2, h3, x)
    ensures forall x: Addr :: SameShape(h1, h3, x)
  {
    forall x: Addr ensures SameShape(h1, h3, x) { assert SameShape(h1, h2, x) && SameShape(h2, h3, x); }
  }

  lemma QueueGrows(ias0: seq<Allocator>, ias: seq<Allocator>, ias': seq<Allocator>, held0: multiset<Addr>, held: multiset<Addr>, held': multiset<Addr>,
                   c: int, was: seq<Addr>, taken: seq<Addr>)
    requires 0 <= c < |ias0| && ias == ias0[c := ias0[c].(queue := ias0[c].queue + was)] && held == held0 + multiset(was)
    requires ias' == ias[c := ias[c].(queue := ias[c].queue + taken)] && held' == held + multiset(taken)
    ensures ias' == ias0[c := ias0[c].(queue := ias0[c].queue + (was + taken))] && held' == held0 + multiset(was + taken)
  {
    assert ias0[c].queue + was + taken == ias0[c].queue + (was + taken);
    assert multiset(was + taken) == multiset(was) + multiset(taken);
  }

  lemma ReferencedStep(mem: Heap, h: SegId, log: Log, k0: int, k: int)
    requires 0 <= k0 <= k < |log| && Addr(h, log[k]) in mem
    ensures var a := Addr(h, log[k]);
            Referenced(mem, h, log[k0..k + 1]) == Referenced(mem, h, log[k0..k]) + if mem[a].refcount > 0 then [a] else []
  {
    var offs := log[k0..k + 1];
    assert offs[..|offs| - 1] == log[k0..k] && offs[|offs| - 1] == log[k];
  }

  /** One item of the walk: `item_tryref`, and a place in the queue if that took a reference. */
  method VisitItem(st: KvStore, c: int, a: Addr, it: Item, ghost mem: Heap, ghost live: bool, ghost h: SegId) returns (ghost taken: seq<Addr>)
    requires ValidBut(st, c) && (live ==> st.Valid()) && 0 <= c < |st.ias|
    requires a.seg == h && a in mem && BytesAt(mem, st.heap, live, h, a) && Peek(st.heap, mem, a) == Some(it)
    modifies st`heap, st`held, st`ias
    ensures ValidBut(st, c) && (live ==> st.Valid()) && st.View() == old(st.View())
    ensures TotalSize(it) == TotalSize(mem[a]) && taken == if mem[a].refcount > 0 then [a] else []
    ensures forall x: Addr :: SameShape(old(st.heap), st.heap, x)
    ensures st.ias == old(st.ias)[c := old(st.ias)[c].(queue := old(st.ias)[c].queue + taken)] && st.held == old(st.held) + multiset(taken)
  {
    hide KvStore.Valid, ValidBut, ValuesOf;
    taken := [];
    if it.refcount > 0 {
      TryQueue(st, c, a);
      ValidParts(st, c);
      taken := [a];
    } else {
      assert st.ias[c].queue + [] == st.ias[c].queue;
    }
  }

  /**
   The second loop of `ialloc_maintenance`: from the saved position to the end of the segment or until
   the queue is full. It goes astray at a filler whose length does not fit: what the code does there
   depends on bytes that are no item, and the model stops.
   */
  method Walk(st: KvStore, c: int, h: SegId, start: int, mem: Heap, ghost seg: Segment, ghost log: Log, ghost live: bool)
    returns (off: int, astray: bool, ghost k0: int, ghost k: int)
    requires ValidBut(st, c) && (live ==> st.Valid()) && 0 <= c < |st.ias| && h in st.segs
    requires Walkable(mem, seg, h, log) && st.segs[h].size == seg.size && st.segs[h].filler == seg.filler && AtTile(seg, log, start)
    requires forall a: Addr :: BytesAt(mem, st.heap, live, h, a)
    modifies st`heap, st`held, st`ias
    ensures ValidBut(st, c) && (live ==> st.Valid()) && st.View() == old(st.View())
    ensures Walked(mem, log, old(st.C()), old(st.ias), st.C(), st.ias, c, h, k0, k) && |st.ias| == |old(st.ias)|
    ensures AtIndex(seg, log, start, k0) && AtIndex(seg, log, off, k)
    ensures k0 == IndexFrom(log, start) && (!astray ==> off == seg.size || |st.ias[c].queue| >= st.segcqsize)
    ensures start != seg.size ==> (astray <==> GoesAstray(mem, seg, log, h, start, |old(st.ias)[c].queue|, st.segcqsize))
    ensures |old(st.ias)[c].queue| >= st.segcqsize ==> off == start && !astray
    ensures |st.ias[c].queue| <= |old(st.ias)[c].queue| || |st.ias[c].queue| <= st.segcqsize
  {
    hide KvStore.Valid, ValidBut, ValuesOf, Walked, Walkable, AtTile, SameShape, BytesAt, GoesAstray, IndexFrom, FillerKeyLen;
    var size := st.segs[h].size;
    off, astray := start, false;
    k := IndexFrom(log, off);
    TileIndex(seg, log, off);
    k0 := k;
    ghost var s0, ias0 := st.C(), st.ias;
    WalkedStart(mem, log, s0, ias0, c, h, k);
    while off < size && |st.ias[c].queue| < st.segcqsize
      invariant ValidBut(st, c) && (live ==> st.Valid()) && st.View() == old(st.View()) && |st.ias| == |ias0|
      invariant Walked(mem, log, s0, ias0, st.C(), st.ias, c, h, k0, k) && AtIndex(seg, log, off, k)
      invariant forall a: Addr :: BytesAt(mem, st.heap, live, h, a)
      invariant |st.ias[c].queue| <= |ias0[c].queue| || |st.ias[c].queue| <= st.segcqsize
      invariant |ias0[c].queue| >= st.segcqsize ==> off == start && st.ias == ias0
      invariant k0 <= k && !astray && (off == start || off != size || FillerFits(seg.filler))
      decreases size - off
    {
      WalkStep(mem, seg, h, log, off, k);
      if size - off < ITEM_HEADER {
        off := size;
        break;
      }
      var a := Addr(h, off);
      assert BytesAt(mem, st.heap, live, h, a);
      PeekIs(mem, st.heap, live, h, a);
      var it := Peek(st.heap, mem, a);
      if it.Some? {
        ghost var s, ias := st.C(), st.ias;
        ghost var taken := VisitItem(st, c, a, it.value, mem, live, h);
        WalkedStep(mem, log, s0, ias0, s, ias, st.C(), st.ias, c, h, k0, k, taken);
        BytesFrame(mem, s.heap, st.heap, live, h);
        ItemAtEnd(mem, seg, h, log, off, k);
        k := k + 1;
        off := off + TotalSize(it.value);
      } else if FillerFits(st.segs[h].filler) {
        off := off + ITEM_HEADER + FillerKeyLen(st.segs[h].filler);
      } else {
        astray := true;
        break;
      }
    }
    IndexBelow(mem, seg, h, log, off, k);
    Verdict(mem, seg, log, h, start, st.segcqsize, s0, ias0, st.C(), st.ias, c, off, k0, k, astray);
  }

  /** An item that ends where the segment ends leaves no filler. */
  lemma ItemAtEnd(mem: Heap, seg: Segment, s: SegId, log: Log, off: int, k: int)
    requires Walkable(mem, seg, s, log) && AtIndex(seg, log, off, k) && k < |log|
    ensures Addr(s, off) in mem && (off + TotalSize(mem[Addr(s, off)]) == seg.size ==> FillerFits(seg.filler))
  {
    assert TileOk(mem, seg, s, log, k);
    LogBounds(mem, seg, s, log, k);
  }

  function IndexFrom(log: Log, off: int): nat { if off in log then IndexOf(log, off) else |log| }

  /** The walk reaches a filler whose length does not fit while the queue still has room. */
  predicate GoesAstray(mem: Heap, seg: Segment, log: Log, h: SegId, start: int, queued: nat, cqsize: nat) {
    !FillerFits(seg.filler) && queued + |Referenced(mem, h, log[IndexFrom(log, start)..])| < cqsize
  }

  /** The walk has ended astray if and only if it was to. */
  lemma Verdict(mem: Heap, seg: Segment, log: Log, h: SegId, start: int, cqsize: nat, s0: Core, ias0: seq<Allocator>, s: Core, ias: seq<Allocator>,
                c: int, off: int, k0: nat, k: nat, astray: bool)
    requires Walked(mem, log, s0, ias0, s, ias, c, h, k0, k) && k0 == IndexFrom(log, start) && |ias| == |ias0|
    requires astray ==> k == |log| && !FillerFits(seg.filler) && |ias[c].queue| < cqsize
    requires !astray ==> off == seg.size || |ias[c].queue| >= cqsize
    requires off == start || off != seg.size || FillerFits(seg.filler)
    ensures start != seg.size ==> (astray <==> GoesAstray(mem, seg, log, h, start, |ias0[c].queue|, cqsize))
  {
    ReferencedGrows(mem, h, log, k0, k);
    if k == |log| { assert log[k0..k] == log[k0..]; }
    hide Referenced, SameShape;
  }

  lemma {:induction false} ReferencedGrows(mem: Heap, h: SegId, log: Log, k0: nat, k: nat)
    requires k0 <= k <= |log|
    ensures |Referenced(mem, h, log[k0..k])| <= |Referenced(mem, h, log[k0..])|
    decreases |log| - k
  {
    if k == |log| {
      assert log[k0..k] == log[k0..];
    } else {
      ReferencedGrows(mem, h, log, k0, k + 1);
      var offs := log[k0..k + 1];
      assert offs[..|offs| - 1] == log[k0..k];
    }
  }

  lemma PeekIs(mem: Heap, heap: Heap, live: bool, h: SegId, a: Addr)
    requires BytesAt(mem, heap, live, h, a) && a.seg == h
    ensures Peek(heap, mem, a).Some? <==> a in mem
  {
  }

  // ---- what recycling does to the core's own walk ----

  /** The walk is not finished and stands in a segment without live items, and the queue has no room. */
  predicate IsStale(segs: map<SegId, Segment>, ia: Allocator, segcqsize: nat) {
    && ia.cleaning.Some? && ia.cleaning.value in segs && ia.cleanOffset != segs[ia.cleaning.value].size
    && Dead(segs, ia.cleaning.value) && |ia.queue| >= segcqsize
  }

  /** How a call leaves the walk: on an item boundary of the core's log; in a segment that was recycled under it; or lost in a filler. */
  datatype Course = OnTrack | Stale | Astray

  lemma WalkableIn(s: Core, hash: Hash, h: SegId)
    requires CoreOk(s, hash) && h in s.m.segs && h in s.m.owner && s.m.owner[h] != Free && s.m.segs[h].inactive
    ensures h in s.m.logs && Walkable(s.heap, s.m.segs[h], h, s.m.logs[h])
  {
    assert SegOk(s.heap, s.m, h);
    forall off | Addr(h, off) in s.heap ensures off in s.m.logs[h] { assert AddrOk(s.heap, s.m, Addr(h, off)); }
  }

  lemma LiveBytes(heap0: Heap, heap: Heap, segs: map<SegId, Segment>, l: seq<SegId>, h: SegId)
    requires !Dead(segs, h) && forall a: Addr :: OnlyDropped(heap0, heap, segs, l, a)
    ensures forall a: Addr :: BytesAt(heap0, heap, true, h, a)
  {
    forall a: Addr ensures BytesAt(heap0, heap, true, h, a) { assert OnlyDropped(heap0, heap, segs, l, a); }
  }

  /** The bytes of a recycled segment are those of its dead items. */
  lemma DeadBytes(s0: Core, s: Core, hash: Hash, l: seq<SegId>, h: SegId)
    requires CoreOk(s0, hash) && h in s0.m.owner && s0.m.owner[h] != Free && Dead(s0.m.segs, h) && s0.m.segs[h].inactive
    requires CoreOk(s, hash) && h in s.m.owner && s.m.owner[h] == Free
    requires forall a: Addr :: OnlyDropped(s0.heap, s.heap, s0.m.segs, l, a)
    ensures forall a: Addr :: BytesAt(s0.heap, s.heap, false, h, a)
  {
    forall a: Addr ensures BytesAt(s0.heap, s.heap, false, h, a) {
      assert OnlyDropped(s0.heap, s.heap, s0.m.segs, l, a) && AddrOk(s.heap, s.m, a);
      if a.seg == h && a in s0.heap { RecycledItemsUnreachable(s0.heap, s0.m, s0.keys, s0.held, h, a); }
    }
  }

  lemma DeadReferenced(mem: Heap, heap: Heap, h: SegId, offs: Log)
    requires forall a: Addr :: BytesAt(mem, heap, false, h, a)
    ensures Referenced(mem, h, offs) == []
  {
    if offs != [] {
      assert BytesAt(mem, heap, false, h, Addr(h, offs[|offs| - 1]));
      DeadReferenced(mem, heap, h, offs[..|offs| - 1]);
    }
  }

  lemma WalkSurvives(m0: Memory, m: Memory, ias0: seq<Allocator>, ias: seq<Allocator>, c: int)
    requires WalkOk(m0, ias0, c) && 0 <= c < |ias0| == |ias| && SameWalk(ias0, ias, c)
    requires forall x: SegId :: SameAccount(m0.segs, m.segs, x)
    requires forall x: SegId :: StaysPut(m0, m, x)
    requires ias0[c].cleaning.Some? && ias0[c].cleaning.value in m0.segs && Dead(m0.segs, ias0[c].cleaning.value) ==>
               ias0[c].cleanOffset == m0.segs[ias0[c].cleaning.value].size
    ensures WalkOk(m, ias, c)
  {
    if ias0[c].cleaning.Some? {
      var h := ias0[c].cleaning.value;
      assert SameAccount(m0.segs, m.segs, h) && StaysPut(m0, m, h);
    }
  }

  /** An unfinished walk stands in a closed segment of the core's log. */
  lemma WalkInLog(g: Alloc, c: int)
    requires Ok(g) && WalkOk(g.m, g.ias, c) && 0 <= c < |g.ias| && g.ias[c].cleaning.Some?
    requires g.ias[c].cleaning.value in g.m.segs && g.ias[c].cleanOffset != g.m.segs[g.ias[c].cleaning.value].size
    ensures |g.ias| == |g.pools.chains| && exists j :: 0 <= j < |g.pools.chains[c]| - 1 && g.pools.chains[c][j] == g.ias[c].cleaning.value
  {
    var h, l := g.ias[c].cleaning.value, g.pools.chains[c];
    assert OwnerOk(g.m, g.ias, g.pools, h) && ChainOk(g.m, g.ias, g.pools, c);
    var j := IndexOf(l, h);
    assert FlagAt(g.m.segs, l, j);
  }

  lemma ClosedSegment(g: Alloc, c: int, h: SegId)
    requires Ok(g) && 0 <= c < |g.ias| == |g.pools.chains| && g.pools.chains[c] != [] && h in Closeds(g.pools.chains[c])
    ensures h in g.m.segs && h in g.m.owner && g.m.owner[h] == InChain(c) && g.m.segs[h].inactive
  {
    var l := g.pools.chains[c];
    var i :| 0 <= i < |Closeds(l)| && Closeds(l)[i] == h;
    ChainLink(g, c, i);
  }

  // ---- saving the position ----

  lemma SavedOk(heap: Heap, g: Alloc, ias': seq<Allocator>, lim: Limits, c: int, off: int)
    requires Ok(g) && TidyBut(heap, g.m, g.ias, lim, c) && 0 <= c < |g.ias|
    requires ias' == g.ias[c := g.ias[c].(cleanOffset := off)]
    ensures Ok(g.(ias := ias')) && TidyBut(heap, g.m, ias', lim, c)
  {
    forall d: int | d != c ensures WalkOk(g.m, ias', d) { assert WalkOk(g.m, g.ias, d); }
    hide AllocOk;
    forall x: SegId ensures SameHeader(g.m, g.m, x) { }
    AllocFrame(g.m, g.m, g.ias, ias', g.pools, g.freeHead, g.alloced);
  }

  method SaveWalk(st: KvStore, c: int, off: int)
    requires ValidBut(st, c) && 0 <= c < |st.ias|
    modifies st`ias
    ensures ValidBut(st, c) && st.ias == old(st.ias)[c := old(st.ias)[c].(cleanOffset := off)]
  {
    hide CoreOk, AllocOk, TidyBut;
    ghost var g := st.G();
    st.ias := st.ias[c := st.ias[c].(cleanOffset := off)];
    SavedOk(st.heap, g, st.ias, st.Lim(), c, off);
  }

  /** The references are accounted for, whatever core c's walk is like. */
  ghost predicate SettledBut(st: KvStore, c: int, others: multiset<Addr>)
    reads st
  {
    ValidBut(st, c) && AllHome(st.owner) && st.held == Queued(st.ias) + others
  }

  /** What one call of `ialloc_maintenance` for core c may do to the allocators. */
  ghost predicate OnlyCore(ias: seq<Allocator>, ias': seq<Allocator>, c: int) {
    |ias'| == |ias| && forall d :: 0 <= d < |ias| && d != c ==> ias'[d] == ias[d]
  }

  /** Segment h of core c's log, as the walk finds it: on the log, or recycled earlier in the same call. */
  ghost predicate InHand(st: KvStore, c: int, h: SegId, mem: Heap, seg: Segment, log: Log, live: bool)
    reads st
  {
    && h in st.segs && st.segs[h].size == seg.size && st.segs[h].filler == seg.filler
    && Walkable(mem, seg, h, log)
    && (forall a: Addr :: BytesAt(mem, st.heap, live, h, a))
    && (live ==> h in st.logs && st.logs[h] == log && h in st.owner && st.owner[h] == InChain(c) && st.segs[h].inactive)
  }

  /** What the walk of segment h from `start` has queued: exactly the items referenced in mem from index k0 to index k, in memory order. */
  ghost predicate Queues(mem: Heap, seg: Segment, log: Log, h: SegId, start: int, queue: seq<Addr>, queue': seq<Addr>, k0: int, k: int) {
    && k0 == IndexFrom(log, start) && AtIndex(seg, log, start, k0) && k0 <= k <= |log| && queue' == queue + Referenced(mem, h, log[k0..k])
  }

  /** Nothing of the allocators but core c's queue and walk position. */
  ghost predicate WorkOnly(ias: seq<Allocator>, ias': seq<Allocator>, c: int) {
    0 <= c < |ias| == |ias'| && ias' == ias[c := ias[c].(queue := ias'[c].queue, cleanOffset := ias'[c].cleanOffset)]
  }

  /** Walk on, and save the position. */
  method Resume(st: KvStore, c: int, h: SegId, stale: bool, mem: Heap, ghost seg: Segment, ghost log: Log, ghost live: bool, ghost others: multiset<Addr>)
    returns (course: Course, ghost k0: int, ghost k: int)
    requires SettledBut(st, c, others) && (live ==> st.Valid()) && 0 <= c < |st.ias| && st.ias[c].cleaning == Some(h)
    requires InHand(st, c, h, mem, seg, log, live) && AtTile(seg, log, st.ias[c].cleanOffset) && st.ias[c].cleanOffset != seg.size
    requires stale <==> !live && |st.ias[c].queue| >= st.segcqsize
    modifies st`heap, st`held, st`ias
    ensures SettledBut(st, c, others) && st.View() == old(st.View()) && OnlyCore(old(st.ias), st.ias, c)
    ensures st.ias[c].cleaning == Some(h) && k0 == IndexFrom(log, old(st.ias)[c].cleanOffset)
    ensures Queues(mem, seg, log, h, old(st.ias)[c].cleanOffset, old(st.ias)[c].queue, st.ias[c].queue, k0, k)
    ensures WorkOnly(old(st.ias), st.ias, c)
    ensures course == Stale <==> stale
    ensures course == Astray <==> GoesAstray(mem, seg, log, h, old(st.ias)[c].cleanOffset, |old(st.ias)[c].queue|, st.segcqsize)
    ensures course == Stale ==> st.ias[c].cleanOffset == old(st.ias)[c].cleanOffset
    ensures course == OnTrack ==>
              && Settled(st, others) && AtIndex(seg, log, st.ias[c].cleanOffset, k)
              && (st.ias[c].cleanOffset == seg.size || |st.ias[c].queue| >= st.segcqsize)
    ensures |st.ias[c].queue| <= |old(st.ias)[c].queue| || |st.ias[c].queue| <= st.segcqsize
    ensures |old(st.ias)[c].queue| >= st.segcqsize ==> st.ias[c].cleanOffset == old(st.ias)[c].cleanOffset
  {
    hide KvStore.Valid, ValidBut, AllHome, ValuesOf, Queued, AtTile, Referenced, SameShape, AtIndex, Walkable, BytesAt, GoesAstray, IndexFrom;
    ghost var ias0 := st.ias;
    var off, astray;
    off, astray, k0, k := Walk(st, c, h, st.ias[c].cleanOffset, mem, seg, log, live);
    QueuedPush(ias0, c, st.ias[c], Referenced(mem, h, log[k0..k]), others);
    if astray {
      return Astray, k0, k;
    }
    ghost var ias1 := st.ias;
    IndexTile(seg, log, off, k);
    SaveWalk(st, c, off);
    QueuedSame(ias1, c, st.ias[c]);
    if stale {
      return Stale, k0, k;
    }
    if !live { DeadDone(mem, old(st.heap), h, log[k0..k]); }
    WalkSaved(st, c, h, seg, log, live);
    ValidParts(st, c);
    course := OnTrack;
  }

  lemma DeadDone(mem: Heap, heap: Heap, h: SegId, offs: Log)
    requires forall a: Addr :: BytesAt(mem, heap, false, h, a)
    ensures |Referenced(mem, h, offs)| == 0
  {
    DeadReferenced(mem, heap, h, offs);
  }

  lemma WalkSaved(st: KvStore, c: int, h: SegId, seg: Segment, log: Log, live: bool)
    requires 0 <= c < |st.ias| && st.ias[c].cleaning == Some(h) && h in st.segs && st.segs[h].size == seg.size && st.segs[h].filler == seg.filler
    requires AtTile(seg, log, st.ias[c].cleanOffset)
    requires live ==> h in st.logs && st.logs[h] == log && h in st.owner && st.owner[h] == InChain(c) && st.segs[h].inactive
    requires !live ==> st.ias[c].cleanOffset == seg.size
    ensures WalkOk(st.M(), st.ias, c)
  {
  }

  // ---- the whole call ----

  /** Headers as recycling and starting leave them. */
  ghost predicate HeaderKept(segs: map<SegId, Segment>, segs': map<SegId, Segment>, h: SegId) {
    h in segs && h in segs' && segs'[h] == segs[h].(offset := segs'[h].offset, next := segs'[h].next, cleaned := segs'[h].cleaned)
  }

  lemma HandLive(s0: Core, g0: Alloc, st: KvStore, c: int, h: SegId, l: seq<SegId>)
    requires CoreOk(s0, st.hash) && Ok(g0) && g0.m == s0.m && HeaderKept(s0.m.segs, st.segs, h) && !Dead(s0.m.segs, h)
    requires h in st.owner && st.owner[h] == InChain(c) && st.segs[h].inactive && StaysPut(s0.m, st.M(), h)
    requires forall a: Addr :: OnlyDropped(s0.heap, st.heap, s0.m.segs, l, a)
    ensures h in s0.m.logs && InHand(st, c, h, s0.heap, s0.m.segs[h], s0.m.logs[h], true) && AtTile(s0.m.segs[h], s0.m.logs[h], 0)
  {
    assert OwnerOk(g0.m, g0.ias, g0.pools, h);
    WalkableIn(s0, st.hash, h);
    StartTile(s0.heap, s0.m, h);
    LiveBytes(s0.heap, st.heap, s0.m.segs, l, h);
  }

  lemma HandDead(s0: Core, st: KvStore, c: int, h: SegId, l: seq<SegId>)
    requires CoreOk(s0, st.hash) && HeaderKept(s0.m.segs, st.segs, h) && Dead(s0.m.segs, h) && s0.m.segs[h].inactive
    requires h in s0.m.owner && s0.m.owner[h] == InChain(c) && ValidBut(st, c) && h in st.owner && st.owner[h] == Free
    requires forall a: Addr :: OnlyDropped(s0.heap, st.heap, s0.m.segs, l, a)
    ensures h in s0.m.logs && InHand(st, c, h, s0.heap, s0.m.segs[h], s0.m.logs[h], false)
  {
    WalkableIn(s0, st.hash, h);
    DeadBytes(s0, st.C(), st.hash, l, h);
  }

  /** The call is in the middle: dead segments are recycled, the walk has not been looked at. */
  ghost predicate HalfDone(s0: Core, g0: Alloc, st: KvStore, c: int, others: multiset<Addr>)
    reads st
  {
    && CoreOk(s0, st.hash) && Ok(g0) && g0.m == s0.m && 0 <= c < |g0.ias| == |g0.pools.chains| && g0.pools.chains[c] != []
    && WalkOk(g0.m, g0.ias, c)
    && SettledBut(st, c, others) && |st.ias| == |g0.ias|
    && st.ias == g0.ias[c := g0.ias[c].(oldest := st.ias[c].oldest)]
    && (forall a: Addr :: OnlyDropped(s0.heap, st.heap, s0.m.segs, g0.pools.chains[c], a))
    && (forall x: SegId :: SameAccount(s0.m.segs, st.segs, x))
    && (forall x: SegId :: StaysPut(s0.m, st.M(), x))
    && (forall j :: 0 <= j < |g0.pools.chains[c]| - 1 ==> FreedAt(s0.m.segs, st.owner, g0.pools.chains[c], j))
  }

  /** An unfinished walk goes on where it stands, even if its segment has just been recycled. */
  method GoOn(st: KvStore, c: int, h: SegId, stale: bool, mem: Heap, ghost s0: Core, ghost g0: Alloc, ghost others: multiset<Addr>)
    returns (course: Course, ghost k0: int, ghost k: int)
    requires HalfDone(s0, g0, st, c, others) && mem == s0.heap && st.ias[c].cleaning == Some(h)
    requires h in s0.m.segs && st.ias[c].cleanOffset != s0.m.segs[h].size
    requires stale == IsStale(s0.m.segs, g0.ias[c], st.segcqsize)
    modifies st`heap, st`held, st`ias
    ensures SettledBut(st, c, others) && st.View() == old(st.View()) && OnlyCore(old(st.ias), st.ias, c)
    ensures h in s0.m.logs && st.ias[c].cleaning == Some(h) && WorkOnly(old(st.ias), st.ias, c)
    ensures k0 == IndexFrom(s0.m.logs[h], old(st.ias)[c].cleanOffset)
    ensures Queues(s0.heap, s0.m.segs[h], s0.m.logs[h], h, old(st.ias)[c].cleanOffset, old(st.ias)[c].queue, st.ias[c].queue, k0, k)
    ensures course == Stale <==> stale
    ensures course == Astray <==>
              GoesAstray(s0.heap, s0.m.segs[h], s0.m.logs[h], h, old(st.ias)[c].cleanOffset, |old(st.ias)[c].queue|, st.segcqsize)
    ensures |old(st.ias)[c].queue| >= st.segcqsize ==> st.ias[c].cleanOffset == old(st.ias)[c].cleanOffset
    ensures course == Stale ==> st.ias[c].cleanOffset == old(st.ias)[c].cleanOffset && h in st.owner && st.owner[h] == Free
    ensures course == OnTrack ==>
              && Settled(st, others) && AtIndex(s0.m.segs[h], s0.m.logs[h], st.ias[c].cleanOffset, k)
              && (st.ias[c].cleanOffset == s0.m.segs[h].size || |st.ias[c].queue| >= st.segcqsize)
    ensures |st.ias[c].queue| <= |old(st.ias)[c].queue| || |st.ias[c].queue| <= st.segcqsize
  {
    hide KvStore.Valid, ValidBut, AllHome, ValuesOf, Queued, AtTile, AtIndex, Queues, InHand, OnlyDropped, CoreOk, AllocOk, GoesAstray;
    ghost var live := !Dead(s0.m.segs, h);
    WalkInLog(g0, c);
    ghost var j :| 0 <= j < |g0.pools.chains[c]| - 1 && g0.pools.chains[c][j] == h;
    assert SameAccount(s0.m.segs, st.segs, h) && StaysPut(s0.m, st.M(), h) && FreedAt(s0.m.segs, st.owner, g0.pools.chains[c], j);
    if live {
      HandLive(s0, g0, st, c, h, g0.pools.chains[c]);
      WalkSurvives(s0.m, st.M(), g0.ias, st.ias, c);
      ValidParts(st, c);
    } else {
      HandDead(s0, st, c, h, g0.pools.chains[c]);
    }
    course, k0, k := Resume(st, c, h, stale, mem, s0.m.segs[h], s0.m.logs[h], live, others);
  }

  /** No walk, or a finished one: the candidate is taken up. It is walked at once only if a segment was cleaned before, since `size` is still that segment's. */
  method TakeUp(st: KvStore, c: int, cand: Option<SegId>, size: nat, mem: Heap, ghost s0: Core, ghost g0: Alloc, ghost others: multiset<Addr>)
    returns (course: Course, ghost k0: int, ghost k: int)
    requires HalfDone(s0, g0, st, c, others) && mem == s0.heap
    requires g0.ias[c].cleaning.Some? ==> g0.ias[c].cleaning.value in s0.m.segs && g0.ias[c].cleanOffset == s0.m.segs[g0.ias[c].cleaning.value].size
    requires cand == Pick(s0.m.segs, st.cleanRatio, Closeds(g0.pools.chains[c]))
    modifies st`heap, st`held, st`ias, st`segs
    ensures SettledBut(st, c, others) && st.View() == old(st.View()) && OnlyCore(old(st.ias), st.ias, c)
    ensures course != Stale && st.ias[c].cleaning == cand
    ensures WorkOnly(Started(old(st.G()), c, cand).ias, st.ias, c) && st.G() == Started(old(st.G()), c, cand).(ias := st.ias)
    ensures cand == None || size == 0 ==> course == OnTrack && st.ias[c].queue == old(st.ias)[c].queue && st.ias[c].cleanOffset == 0
    ensures course == OnTrack ==> Settled(st, others)
    ensures |old(st.ias)[c].queue| >= st.segcqsize ==> st.ias[c].cleanOffset == 0
    ensures cand.Some? && size > 0 ==>
              var h := cand.value;
              && h in s0.m.logs && h in s0.m.segs && k0 == IndexFrom(s0.m.logs[h], 0)
              && Queues(s0.heap, s0.m.segs[h], s0.m.logs[h], h, 0, old(st.ias)[c].queue, st.ias[c].queue, k0, k)
              && (course == Astray <==> GoesAstray(s0.heap, s0.m.segs[h], s0.m.logs[h], h, 0, |old(st.ias)[c].queue|, st.segcqsize))
              && (course == OnTrack ==>
                    && AtIndex(s0.m.segs[h], s0.m.logs[h], st.ias[c].cleanOffset, k)
                    && (st.ias[c].cleanOffset == s0.m.segs[h].size || |st.ias[c].queue| >= st.segcqsize))
    ensures |st.ias[c].queue| <= |old(st.ias)[c].queue| || |st.ias[c].queue| <= st.segcqsize
  {
    hide KvStore.Valid, ValidBut, AllHome, ValuesOf, Queued, AtTile, AtIndex, Queues, InHand, OnlyDropped, CoreOk, AllocOk, GoesAstray, Pick;
    WalkSurvives(s0.m, st.M(), g0.ias, st.ias, c);
    ValidParts(st, c);
    if cand.Some? { CandidateIn(s0, g0, st, c, cand.value); }
    ghost var was, g1 := st.ias, st.G();
    StartCleaning(st, c, cand);
    ValidParts(st, c);
    QueuedSame(was, c, st.ias[c]);
    course, k0, k := OnTrack, 0, 0;
    if cand.Some? && size > 0 {
      ghost var h := cand.value;
      assert SameAccount(s0.m.segs, old(st.segs), h) && StaysPut(s0.m, old(st.M()), h);
      HandLive(s0, g0, st, c, h, g0.pools.chains[c]);
      SizePositive(st, h);
      course, k0, k := Resume(st, c, cand.value, false, mem, s0.m.segs[h], s0.m.logs[h], true, others);
    }
  }

  /** The candidate is a closed segment of the core's log that has not been recycled. */
  lemma CandidateIn(s0: Core, g0: Alloc, st: KvStore, c: int, h: SegId)
    requires Ok(g0) && g0.m == s0.m && 0 <= c < |g0.ias| == |g0.pools.chains| && g0.pools.chains[c] != []
    requires Pick(s0.m.segs, st.cleanRatio, Closeds(g0.pools.chains[c])) == Some(h)
    requires forall x: SegId :: SameAccount(s0.m.segs, st.segs, x)
    requires forall x: SegId :: StaysPut(s0.m, st.M(), x)
    ensures h in s0.m.segs && !Dead(s0.m.segs, h) && h in st.segs && h in st.owner && st.owner[h] == InChain(c) && st.segs[h].inactive
  {
    PickIsBest(s0.m.segs, st.cleanRatio, Closeds(g0.pools.chains[c]));
    ClosedSegment(g0, c, h);
    assert SameAccount(s0.m.segs, st.segs, h) && StaysPut(s0.m, st.M(), h);
  }

  lemma SizePositive(st: KvStore, h: SegId)
    requires st.Valid() && h in st.segs
    ensures st.segs[h].size == st.segsize > 0
  {
    assert HeaderOk(st.segs, st.Lim(), h);
  }

  /** The segment a call walks: the one in hand, or after a finished one the candidate; the first candidate ever is not walked yet. */
  function Target(ia: Allocator, segsize: nat, cand: Option<SegId>): Option<SegId> {
    if ia.cleaning == None then None else if ia.cleanOffset != segsize then ia.cleaning else cand
  }

  /** The walk of core c stands in a segment that is free, short of its end. */
  ghost predicate Dangling(st: KvStore, c: int)
    reads st
  {
    && 0 <= c < |st.ias| && st.ias[c].cleaning.Some? && st.ias[c].cleaning.value in st.owner
    && st.owner[st.ias[c].cleaning.value] == Free && st.ias[c].cleanOffset != st.segsize
  }

  /** Does the call leave the walk in hand where it is, to take up a candidate? */
  predicate TakesUp(ia: Allocator, segsize: nat) { ia.cleaning == None || ia.cleanOffset == segsize }

  /** Where the call's walk begins. */
  function StartOf(ia: Allocator, segsize: nat): int { if TakesUp(ia, segsize) then 0 else ia.cleanOffset }

  /** The candidate of a call, and the segment it walks. */
  function Candidate(cfg: Settings, pre: Snapshot, c: int): Option<SegId> {
    var l := Chain(pre.alloc, c);
    Pick(pre.alloc.m.segs, cfg.cleanRatio, if l == [] then [] else Closeds(l))
  }

  function Walks(cfg: Settings, pre: Snapshot, c: int): Option<SegId> {
    if 0 <= c < |pre.alloc.ias| then Target(pre.alloc.ias[c], cfg.segsize, Candidate(cfg, pre, c)) else None
  }

  /** The pre-call condition under which the walk is left dangling. */
  predicate FindsStale(cfg: Settings, pre: Snapshot, c: int) {
    0 <= c < |pre.alloc.ias| && IsStale(pre.alloc.m.segs, pre.alloc.ias[c], cfg.cqsize)
  }

  /** The pre-call condition under which the walk is lost in a filler. */
  predicate FindsMisfit(cfg: Settings, pre: Snapshot, c: int) {
    && 0 <= c < |pre.alloc.ias| && Walks(cfg, pre, c).Some?
    && (var h, ia := Walks(cfg, pre, c).value, pre.alloc.ias[c];
        && h in pre.alloc.m.segs && h in pre.alloc.m.logs
        && GoesAstray(pre.core.heap, pre.alloc.m.segs[h], pre.alloc.m.logs[h], h, StartOf(ia, cfg.segsize), |ia.queue|, cfg.cqsize))
  }

  /** Segments, lists and allocators after a call, but for core c's queue and walk position. */
  function Maintained(cfg: Settings, pre: Snapshot, c: int): Alloc {
    var g := RecycleFrom(pre.alloc, c, 0);
    if 0 <= c < |g.ias| && 0 <= c < |pre.alloc.ias| && TakesUp(pre.alloc.ias[c], cfg.segsize) then Started(g, c, Candidate(cfg, pre, c)) else g
  }

  /** Segments, lists and allocators are as recycling and taking up leave them, but for core c's queue and walk position. */
  ghost predicate AllocMaintained(cfg: Settings, pre: Snapshot, post: Snapshot, c: int) {
    var g := Maintained(cfg, pre, c);
    WorkOnly(g.ias, post.alloc.ias, c) && post.alloc == g.(ias := post.alloc.ias) && post.core.m == post.alloc.m
  }

  /** The queue gets exactly the referenced items of the segment that is walked, from the walk's start to index k. */
  ghost predicate QueueMaintained(cfg: Settings, pre: Snapshot, post: Snapshot, c: int, course: Course, k: int) {
    && 0 <= c < |pre.alloc.ias| == |post.alloc.ias|
    && (var ia, ia' := pre.alloc.ias[c], post.alloc.ias[c];
        && (|ia.queue| >= cfg.cqsize ==> ia'.cleanOffset == StartOf(ia, cfg.segsize))
        && (|ia'.queue| <= |ia.queue| || |ia'.queue| <= cfg.cqsize)
        && (Walks(cfg, pre, c) == None ==> ia'.queue == ia.queue && ia'.cleanOffset == 0)
        && (Walks(cfg, pre, c).Some? ==>
              var h := Walks(cfg, pre, c).value;
              && h in pre.alloc.m.logs && h in pre.alloc.m.segs
              && Queues(pre.core.heap, pre.alloc.m.segs[h], pre.alloc.m.logs[h], h, StartOf(ia, cfg.segsize), ia.queue, ia'.queue,
                        IndexFrom(pre.alloc.m.logs[h], StartOf(ia, cfg.segsize)), k)
              && (course == OnTrack ==>
                    && AtIndex(pre.alloc.m.segs[h], pre.alloc.m.logs[h], ia'.cleanOffset, k)
                    && (ia'.cleanOffset == cfg.segsize || |ia'.queue| >= cfg.cqsize))))
  }

  /** What one call does. */
  ghost predicate MaintainSpec(cfg: Settings, pre: Snapshot, post: Snapshot, c: int, course: Course, k: int) {
    && post.core.keys == pre.core.keys && post.core.t == pre.core.t && ValuesOf(post.core.heap, post.core.keys) == ValuesOf(pre.core.heap, pre.core.keys)
    && (course == Stale <==> FindsStale(cfg, pre, c))
    && (course == Astray <==> FindsMisfit(cfg, pre, c))
    && AllocMaintained(cfg, pre, post, c)
    && QueueMaintained(cfg, pre, post, c, course, k)
  }

  /** The map stays, and the lists are those that recycling leaves. */
  ghost predicate Between(cfg: Settings, pre: Snapshot, post: Snapshot, c: int, g: Alloc) {
    && 0 <= c < |pre.alloc.ias| == |g.ias| == |pre.alloc.pools.chains| && pre.alloc.pools.chains[c] != []
    && post.core.keys == pre.core.keys && post.core.t == pre.core.t && ValuesOf(post.core.heap, post.core.keys) == ValuesOf(pre.core.heap, pre.core.keys)
    && WorkOnly(g.ias, post.alloc.ias, c) && post.alloc == g.(ias := post.alloc.ias) && post.core.m == post.alloc.m
    && (|pre.alloc.ias[c].queue| >= cfg.cqsize ==> post.alloc.ias[c].cleanOffset == StartOf(pre.alloc.ias[c], cfg.segsize))
    && (|post.alloc.ias[c].queue| <= |pre.alloc.ias[c].queue| || |post.alloc.ias[c].queue| <= cfg.cqsize)
  }

  /** What the walk of segment h has done. */
  ghost predicate WalkDone(cfg: Settings, pre: Snapshot, post: Snapshot, c: int, h: SegId, start: int, course: Course, k: int)
    requires 0 <= c < |pre.alloc.ias| && 0 <= c < |post.alloc.ias|
  {
    && h in pre.alloc.m.logs && h in pre.alloc.m.segs
    && (var ia, ia', seg, log := pre.alloc.ias[c], post.alloc.ias[c], pre.alloc.m.segs[h], pre.alloc.m.logs[h];
        && Queues(pre.core.heap, seg, log, h, start, ia.queue, ia'.queue, IndexFrom(log, start), k)
        && (course == Astray <==> GoesAstray(pre.core.heap, seg, log, h, start, |ia.queue|, cfg.cqsize))
        && (course == OnTrack ==> AtIndex(seg, log, ia'.cleanOffset, k) && (ia'.cleanOffset == cfg.segsize || |ia'.queue| >= cfg.cqsize)))
  }

  lemma GoOnSpec(cfg: Settings, pre: Snapshot, post: Snapshot, c: int, h: SegId, course: Course, k: int)
    requires Between(cfg, pre, post, c, RecycleFrom(pre.alloc, c, 0))
    requires pre.alloc.ias[c].cleaning == Some(h) && pre.alloc.ias[c].cleanOffset != cfg.segsize
    requires WalkDone(cfg, pre, post, c, h, pre.alloc.ias[c].cleanOffset, course, k)
    requires course == Stale <==> IsStale(pre.alloc.m.segs, pre.alloc.ias[c], cfg.cqsize)
    ensures MaintainSpec(cfg, pre, post, c, course, k)
  {
    hide ValuesOf, RecycleFrom, Queues, AtIndex, IndexFrom, GoesAstray, Pick;
  }

  lemma TakeUpSpec(cfg: Settings, pre: Snapshot, post: Snapshot, c: int, course: Course, k: int)
    requires 0 <= c < |pre.alloc.ias| == |RecycleFrom(pre.alloc, c, 0).ias|
    requires Between(cfg, pre, post, c, Started(RecycleFrom(pre.alloc, c, 0), c, Candidate(cfg, pre, c)))
    requires TakesUp(pre.alloc.ias[c], cfg.segsize) && course != Stale
    requires forall h :: pre.alloc.ias[c].cleaning == Some(h) ==> h in pre.alloc.m.segs && pre.alloc.m.segs[h].size == cfg.segsize
    requires match Walks(cfg, pre, c)
             case None => course == OnTrack && post.alloc.ias[c].queue == pre.alloc.ias[c].queue && post.alloc.ias[c].cleanOffset == 0
             case Some(h) => WalkDone(cfg, pre, post, c, h, 0, course, k)
    ensures MaintainSpec(cfg, pre, post, c, course, k)
  {
    hide ValuesOf, RecycleFrom, Queues, AtIndex, IndexFrom, GoesAstray, Pick, Started;
  }

  /**
   `ialloc_maintenance`. The map never changes. The walk is left dangling in a free segment if and only
   if the call finds it stale, and is lost in a filler if and only if it is to meet one that does not
   fit; else it stays on track.
   */
  method Maintain(st: KvStore, c: int, ghost others: multiset<Addr>) returns (course: Course, ghost k: int)
    requires Settled(st, others) && 0 <= c < |st.ias| == |st.pools.chains|
    modifies st
    ensures old(st.pools).chains[c] != []
    ensures MaintainSpec(st.Cfg(), old(st.Now()), st.Now(), c, course, k)
    ensures SettledBut(st, c, others) && OnlyCore(old(st.ias), st.ias, c)
    ensures st.pools.chains == old(st.pools).chains[c := Survivors(old(st.segs), old(st.pools).chains[c])] && st.pools.chains[c] != []
    ensures if old(st.ias)[c].cleaning == None || old(st.ias)[c].cleanOffset == st.segsize
            then Chosen(old(st.segs), st.cleanRatio, Closeds(old(st.pools).chains[c]), st.ias[c].cleaning)
            else st.ias[c].cleaning == old(st.ias)[c].cleaning
    ensures course == OnTrack ==> Settled(st, others) && CallSpan(st.Cfg(), old(st.Now()), st.Now(), c)
    ensures course == Stale ==> Dangling(st, c) && !Settled(st, others) && st.ias[c].cleaning == old(st.ias)[c].cleaning
  {
    hide KvStore.Valid, ValidBut, AllHome, ValuesOf, Queued, AtIndex, IndexFrom, Referenced, Pick, Survivors, OnlyDropped, CoreOk, AllocOk, StaysPut, FreedAt,
         RecycleFrom, GoesAstray, Started, Queues, MaintainSpec, Chosen, CallSpan;
    var stale := IsStale(st.segs, st.ias[c], st.segcqsize);
    var mem := st.heap;
    ghost var pre, s0, g0, k0 := st.Now(), st.C(), st.G(), 0;
    Begin(st, c);
    var cand := RecycleDead(st, c);
    QueuedSame(g0.ias, c, st.ias[c]);
    var h, size := st.ias[c].cleaning, 0;
    if h.Some? {
      assert SameAccount(s0.m.segs, st.segs, h.value);
      size := st.segs[h.value].size;
    }
    if h == None || st.ias[c].cleanOffset == size {
      course, k0, k := TakeUp(st, c, cand, size, mem, s0, g0, others);
      TakeUpSpec(st.Cfg(), pre, st.Now(), c, course, k);
    } else {
      course, k0, k := GoOn(st, c, h.value, stale, mem, s0, g0, others);
      GoOnSpec(st.Cfg(), pre, st.Now(), c, h.value, course, k);
      if course == Stale { NotSettled(st, c, h.value); }
    }
    if course == OnTrack { MaintainSpans(st.Cfg(), pre, st.Now(), c, k); }
  }

  lemma Begin(st: KvStore, c: int)
    requires st.Valid() && 0 <= c < |st.ias|
    ensures ValidBut(st, c) && WalkOk(st.M(), st.ias, c) && CoreOk(st.C(), st.hash) && Ok(st.G())
    ensures |st.pools.chains| == |st.ias| && st.pools.chains[c] != []
    ensures st.ias[c].cleaning.Some? ==> st.ias[c].cleaning.value in st.segs
    ensures st.segsize > 0 && forall x :: x in st.segs ==> st.segs[x].size == st.segsize
  {
    ValidParts(st, c);
    AtLink(st, c, 0);
    assert WalkOk(st.M(), st.ias, c);
    forall x | x in st.segs ensures st.segs[x].size == st.segsize { SizePositive(st, x); }
  }

  lemma NotSettled(st: KvStore, c: int, h: SegId)
    requires 0 <= c < |st.ias| && st.ias[c].cleaning == Some(h) && h in st.owner && st.owner[h] == Free
    requires h in st.segs && st.ias[c].cleanOffset != st.segs[h].size
    ensures !st.Valid()
  {
    ValidParts(st, c);
  }

  // ---- what a call queues, by offsets ----

  ghost predicate Ascending(offs: seq<int>) { forall i, j :: 0 <= i < j < |offs| ==> offs[i] < offs[j] }

  /** The items of these addresses are in segment h, in memory order. */
  ghost predicate InOrder(queue: seq<Addr>, h: SegId) {
    && (forall i :: 0 <= i < |queue| ==> queue[i].seg == h)
    && forall i, j :: 0 <= i < j < |queue| ==> queue[i].off < queue[j].off
  }

  lemma {:induction false} ReferencedIs(heap: Heap, h: SegId, offs: Log)
    ensures forall a :: a in Referenced(heap, h, offs) <==> a.seg == h && a.off in offs && a in heap && heap[a].refcount > 0
    ensures Ascending(offs) ==> InOrder(Referenced(heap, h, offs), h)
  {
    if offs != [] {
      var init, last := offs[..|offs| - 1], offs[|offs| - 1];
      ReferencedIs(heap, h, init);
      assert offs == init + [last];
      if Ascending(offs) { assert forall o :: o in init ==> o < last; }
    }
  }

  /** Exactly the referenced items of segment h from offset start up to offset end join the queue, in memory order. */
  ghost predicate QueuedSpan(heap: Heap, h: SegId, start: int, end: int, queue: seq<Addr>, queue': seq<Addr>) {
    && |queue| <= |queue'| && queue'[..|queue|] == queue && InOrder(queue'[|queue|..], h)
    && forall a: Addr :: SpanAt(heap, h, start, end, queue'[|queue|..], a)
  }

  ghost predicate SpanAt(heap: Heap, h: SegId, start: int, end: int, added: seq<Addr>, a: Addr) {
    a in added <==> a.seg == h && start <= a.off < end && a in heap && heap[a].refcount > 0
  }

  lemma BeforeIndex(heap: Heap, seg: Segment, h: SegId, log: Log, off: int, k: int, i: int)
    requires LogOk(heap, seg, h, log) && AtIndex(seg, log, off, k) && 0 <= i < |log|
    ensures i < k <==> log[i] < off
  {
    LogBounds(heap, seg, h, log, i);
    assert TileOk(heap, seg, h, log, i);
    if k < |log| {
      if i < k { LogIncreases(heap, seg, h, log, i, k); }
      if k < i { LogIncreases(heap, seg, h, log, k, i); }
    }
  }

  lemma SpanQueued(heap: Heap, m: Memory, h: SegId, start: int, end: int, queue: seq<Addr>, queue': seq<Addr>, k: int)
    requires MemoryOk(heap, m) && h in m.segs && h in m.logs && h in m.owner && m.owner[h] != Free
    requires Queues(heap, m.segs[h], m.logs[h], h, start, queue, queue', IndexFrom(m.logs[h], start), k) && AtIndex(m.segs[h], m.logs[h], end, k)
    ensures QueuedSpan(heap, h, start, end, queue, queue')
  {
    assert SegOk(heap, m, h);
    var seg, log, k0 := m.segs[h], m.logs[h], IndexFrom(m.logs[h], start);
    var offs := log[k0..k];
    forall i, j | 0 <= i < j < |offs| ensures offs[i] < offs[j] { LogIncreases(heap, seg, h, log, k0 + i, k0 + j); }
    ReferencedIs(heap, h, offs);
    hide LogOk, Referenced, IndexFrom;
    assert queue'[|queue|..] == Referenced(heap, h, offs);
    forall a: Addr ensures SpanAt(heap, h, start, end, Referenced(heap, h, offs), a) {
      if a.seg == h && a in heap { assert AddrOk(heap, m, a); }
      SliceIs(heap, seg, h, log, start, end, k0, k, a.off);
    }
  }

  /** The log from one index to another is the log from one offset to another. */
  lemma SliceIs(heap: Heap, seg: Segment, h: SegId, log: Log, start: int, end: int, k0: int, k: int, off: int)
    requires LogOk(heap, seg, h, log) && AtIndex(seg, log, start, k0) && AtIndex(seg, log, end, k) && k0 <= k
    ensures off in log[k0..k] <==> off in log && start <= off < end
  {
    if off in log {
      var i :| 0 <= i < |log| && log[i] == off;
      BeforeIndex(heap, seg, h, log, start, k0, i);
      BeforeIndex(heap, seg, h, log, end, k, i);
      if start <= off < end { assert log[k0..k][i - k0] == off; }
    }
    if off in log[k0..k] {
      var j :| 0 <= j < k - k0 && log[k0..k][j] == off;
      BeforeIndex(heap, seg, h, log, start, k0, k0 + j);
      BeforeIndex(heap, seg, h, log, end, k, k0 + j);
    }
  }

  /** A call that stays on track, in terms of offsets: what it walks, from where to where, and what that queues. */
  ghost predicate CallSpan(cfg: Settings, pre: Snapshot, post: Snapshot, c: int)
    requires 0 <= c < |pre.alloc.ias| && 0 <= c < |post.alloc.ias|
  {
    var heap, ia, ia' := pre.core.heap, pre.alloc.ias[c], post.alloc.ias[c];
    if ia.cleaning.Some? && ia.cleanOffset != cfg.segsize then
      && ia'.cleaning == ia.cleaning
      && QueuedSpan(heap, ia.cleaning.value, ia.cleanOffset, ia'.cleanOffset, ia.queue, ia'.queue)
      && (ia'.cleanOffset == cfg.segsize || |ia'.queue| >= cfg.cqsize)
    else if ia.cleaning.Some? && ia'.cleaning.Some? then
      && QueuedSpan(heap, ia'.cleaning.value, 0, ia'.cleanOffset, ia.queue, ia'.queue)
      && (ia'.cleanOffset == cfg.segsize || |ia'.queue| >= cfg.cqsize)
    else
      ia'.queue == ia.queue && ia'.cleanOffset == 0
  }

  lemma MaintainSpans(cfg: Settings, pre: Snapshot, post: Snapshot, c: int, k: int)
    requires MaintainSpec(cfg, pre, post, c, OnTrack, k)
    requires CoreOk(pre.core, cfg.hash) && Ok(pre.alloc) && pre.alloc.m == pre.core.m && 0 <= c < |pre.alloc.ias| == |pre.alloc.pools.chains|
    requires WalkOk(pre.alloc.m, pre.alloc.ias, c) && pre.alloc.pools.chains[c] != []
    requires forall x :: x in pre.alloc.m.segs ==> pre.alloc.m.segs[x].size == cfg.segsize
    ensures 0 <= c < |post.alloc.ias| && CallSpan(cfg, pre, post, c)
  {
    var m, ia, cand := pre.alloc.m, pre.alloc.ias[c], Candidate(cfg, pre, c);
    RecycleKeepsWalk(pre.alloc, c, 0);
    PostCleaning(cfg, pre, post, c, k);
    if Walks(cfg, pre, c).Some? {
      var h := Walks(cfg, pre, c).value;
      if !TakesUp(ia, cfg.segsize) {
        WalkInLog(pre.alloc, c);
        var j :| 0 <= j < |pre.alloc.pools.chains[c]| - 1 && pre.alloc.pools.chains[c][j] == h;
        ChainLink(pre.alloc, c, j);
      } else {
        PickIsBest(m.segs, cfg.cleanRatio, Closeds(pre.alloc.pools.chains[c]));
        ClosedSegment(pre.alloc, c, h);
      }
      hide AllocOk, TableOk, RefsOk, MemoryOk, Pick, RecycleFrom, AllocMaintained, Queues, QueuedSpan, FindsStale, FindsMisfit;
      SpanQueued(pre.core.heap, m, h, StartOf(ia, cfg.segsize), post.alloc.ias[c].cleanOffset, ia.queue, post.alloc.ias[c].queue, k);
    }
  }

  /** Recycling leaves the segment in hand. */
  lemma {:induction false} RecycleKeepsWalk(g: Alloc, c: int, i: nat)
    requires 0 <= c < |g.ias| == |g.pools.chains|
    ensures var g' := RecycleFrom(g, c, i); |g'.ias| == |g.ias| && g'.ias[c].cleaning == g.ias[c].cleaning
    decreases |Chain(g, c)| - i
  {
    var l := Chain(g, c);
    if i + 1 < |l| && Present(g.m.segs, l) {
      if Dead(g.m.segs, l[i]) {
        RecycleEffects(g, c, i);
        RecycleKeepsWalk(Unlink(g, c, i), c, i);
      } else {
        RecycleKeepsWalk(g, c, i + 1);
      }
    }
  }

  /** What is in hand after a call. */
  lemma PostCleaning(cfg: Settings, pre: Snapshot, post: Snapshot, c: int, k: int)
    requires MaintainSpec(cfg, pre, post, c, OnTrack, k) && 0 <= c < |pre.alloc.ias|
    requires |RecycleFrom(pre.alloc, c, 0).ias| == |pre.alloc.ias| && RecycleFrom(pre.alloc, c, 0).ias[c].cleaning == pre.alloc.ias[c].cleaning
    ensures 0 <= c < |post.alloc.ias|
    ensures post.alloc.ias[c].cleaning == if TakesUp(pre.alloc.ias[c], cfg.segsize) then Candidate(cfg, pre, c) else pre.alloc.ias[c].cleaning
  {
    hide RecycleFrom, Pick, QueueMaintained, ValuesOf, FindsMisfit, FindsStale;
  }
}
