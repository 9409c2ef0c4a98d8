/**
 What the cleaner relies on beyond the store's other invariants: a bound on item sizes, hash values
 that match the keys, and a saved walk position that lies on an item boundary.
 */
module KvWalk {
  import opened Basics
  import opened KvTable
  import opened KvLog
  import opened KvInvariant
  import opened KvCore
  import opened KvAlloc

  /** The store's settings: segment size, and a bound on the sizes of the items put into it. */
  datatype Limits = Limits(hash: Hash, segsize: nat, itemmax: nat)

  ghost predicate ItemOk(heap: Heap, lim: Limits, a: Addr) {
    a in heap ==> heap[a].hv == lim.hash(heap[a].key) && TotalSize(heap[a]) <= lim.itemmax
  }

  ghost predicate HeaderOk(segs: map<SegId, Segment>, lim: Limits, s: SegId) {
    s in segs ==> segs[s].size == lim.segsize
  }

  /** The walk stands at an item, at the filler, or at the end. */
  ghost predicate AtTile(seg: Segment, log: Log, off: int) {
    off in log || off == seg.size - seg.filler || off == seg.size
  }

  /** Core c's walk is finished, or it is on an item boundary of a closed segment of its own log. */
  ghost predicate WalkOk(m: Memory, ias: seq<Allocator>, c: int) {
    0 <= c < |ias| && ias[c].cleaning.Some? ==>
      var h := ias[c].cleaning.value;
      && h in m.segs
      && (ias[c].cleanOffset == m.segs[h].size
          || (&& h in m.logs && h in m.owner && m.owner[h] == InChain(c) && m.segs[h].inactive
              && AtTile(m.segs[h], m.logs[h], ias[c].cleanOffset)))
  }

  ghost predicate Tidy(heap: Heap, m: Memory, ias: seq<Allocator>, lim: Limits) {
    && (forall a: Addr :: ItemOk(heap, lim, a))
    && (forall s: SegId :: HeaderOk(m.segs, lim, s))
    && (forall c: int :: WalkOk(m, ias, c))
  }

  /** The same, but for core c's walk. */
  ghost predicate TidyBut(heap: Heap, m: Memory, ias: seq<Allocator>, lim: Limits, c: int) {
    && (forall a: Addr :: ItemOk(heap, lim, a))
    && (forall s: SegId :: HeaderOk(m.segs, lim, s))
    && (forall d: int :: d == c || WalkOk(m, ias, d))
  }

  /** What the walks rely on about segment s. */
  ghost predicate Kept(m: Memory, m': Memory, s: SegId) {
    s in m.segs ==>
      && s in m'.segs && m'.segs[s].size == m.segs[s].size
      && (s in m.owner && s in m.logs && m.owner[s].InChain? && m.segs[s].inactive ==>
            && s in m'.owner && s in m'.logs && m'.owner[s] == m.owner[s] && m'.logs[s] == m.logs[s]
            && m'.segs[s].inactive && m'.segs[s].filler == m.segs[s].filler)
  }

  ghost predicate SameWalk(ias: seq<Allocator>, ias': seq<Allocator>, c: int) {
    0 <= c < |ias| && c < |ias'| ==> ias'[c].cleaning == ias[c].cleaning && ias'[c].cleanOffset == ias[c].cleanOffset
  }

  lemma WalkFrame(m: Memory, m': Memory, ias: seq<Allocator>, ias': seq<Allocator>)
    requires forall c: int :: WalkOk(m, ias, c)
    requires forall s: SegId :: Kept(m, m', s)
    requires |ias'| == |ias| && forall c: int :: SameWalk(ias, ias', c)
    ensures forall c: int :: WalkOk(m', ias', c)
  {
    forall c: int ensures WalkOk(m', ias', c) {
      assert WalkOk(m, ias, c) && SameWalk(ias, ias', c);
      if 0 <= c < |ias| && ias[c].cleaning.Some? { assert Kept(m, m', ias[c].cleaning.value); }
    }
  }

  lemma ItemsFrame(heap: Heap, heap': Heap, lim: Limits)
    requires SameItems(heap, heap') && forall a: Addr :: ItemOk(heap, lim, a)
    ensures forall a: Addr :: ItemOk(heap', lim, a)
  {
    forall a: Addr ensures ItemOk(heap', lim, a) { assert ItemOk(heap, lim, a) && SameContent(heap, heap', a); }
  }

  /** Changes of links, counts and freed bytes keep all of it. */
  lemma TidyFrame(heap: Heap, heap': Heap, m: Memory, m': Memory, ias: seq<Allocator>, lim: Limits)
    requires Tidy(heap, m, ias, lim) && SameItems(heap, heap')
    requires m'.logs == m.logs && m'.owner == m.owner && m'.segs.Keys == m.segs.Keys
    requires forall s: SegId :: SameHeader(m, m', s)
    ensures Tidy(heap', m', ias, lim)
  {
    ItemsFrame(heap, heap', lim);
    forall s: SegId ensures HeaderOk(m'.segs, lim, s) && Kept(m, m', s) {
      assert HeaderOk(m.segs, lim, s) && SameHeader(m, m', s);
    }
    WalkFrame(m, m', ias, ias);
  }

  // ---- allocation ----

  lemma GrantedTidy(heap: Heap, m: Memory, ias: seq<Allocator>, lim: Limits, h: SegId, next: Option<SegId>)
    requires Tidy(heap, m, ias, lim) && (h in m.owner ==> m.owner[h] == Free) && (h in m.segs ==> h in m.owner)
    ensures Tidy(heap, Granted(m, h, lim.segsize, next), ias, lim)
  {
    var m' := Granted(m, h, lim.segsize, next);
    forall s: SegId ensures HeaderOk(m'.segs, lim, s) && Kept(m, m', s) { assert HeaderOk(m.segs, lim, s); }
    WalkFrame(m, m', ias, ias);
  }

  lemma AppendTidy(heap: Heap, g: Alloc, lim: Limits, c: int, h: SegId)
    requires Tidy(heap, g.m, g.ias, lim)
    requires 0 <= c < |g.ias| == |g.pools.chains| && h in g.m.segs && g.ias[c].cur in g.m.segs && h in g.m.owner && g.m.owner[h] == Loose
    ensures Tidy(heap, Append(g, c, h).m, Append(g, c, h).ias, lim)
  {
    var g' := Append(g, c, h);
    forall s: SegId ensures HeaderOk(g'.m.segs, lim, s) && Kept(g.m, g'.m, s) { assert HeaderOk(g.m.segs, lim, s); }
    WalkFrame(g.m, g'.m, g.ias, g'.ias);
  }

  lemma ReserveTidy(heap: Heap, g: Alloc, lim: Limits, c: int, h: Option<SegId>)
    requires Tidy(heap, g.m, g.ias, lim) && 0 <= c < |g.ias|
    requires g.ias[c].reserved.Some? ==> g.ias[c].reserved.value in g.m.owner && !g.m.owner[g.ias[c].reserved.value].InChain?
    requires h.Some? ==> h.value in g.m.owner && g.m.owner[h.value] == Loose
    ensures Tidy(heap, Reserve(g, c, h).m, Reserve(g, c, h).ias, lim)
  {
    var g' := Reserve(g, c, h);
    forall s: SegId ensures HeaderOk(g'.m.segs, lim, s) && Kept(g.m, g'.m, s) { assert HeaderOk(g.m.segs, lim, s); }
    WalkFrame(g.m, g'.m, g.ias, g'.ias);
  }

  /** Adding an item to the tail of a segment that is still open. */
  lemma PlacedTidy(heap: Heap, m: Memory, ias: seq<Allocator>, lim: Limits, s: SegId, it: Item, a: Addr)
    requires Tidy(heap, m, ias, lim) && Roomy(m, s, TotalSize(it))
    requires it.hv == lim.hash(it.key) && TotalSize(it) <= lim.itemmax
    ensures Tidy(heap[a := it], Placed(m, s, TotalSize(it)), ias, lim)
  {
    var heap', m' := heap[a := it], Placed(m, s, TotalSize(it));
    forall x: Addr ensures ItemOk(heap', lim, x) { assert ItemOk(heap, lim, x); }
    forall x: SegId ensures HeaderOk(m'.segs, lim, x) && Kept(m, m', x) { assert HeaderOk(m.segs, lim, x); }
    WalkFrame(m, m', ias, ias);
  }

  lemma ClosedTidy(heap: Heap, m: Memory, ias: seq<Allocator>, lim: Limits, s: SegId)
    requires Tidy(heap, m, ias, lim) && Roomy(m, s, 0)
    ensures Tidy(heap, m.(segs := m.segs[s := Closed(m.segs[s])]), ias, lim)
  {
    var m' := m.(segs := m.segs[s := Closed(m.segs[s])]);
    forall x: SegId ensures HeaderOk(m'.segs, lim, x) && Kept(m, m', x) { assert HeaderOk(m.segs, lim, x); }
    WalkFrame(m, m', ias, ias);
  }

  /** An item just allocated is referenced by its allocator alone. */
  lemma NewItemOk(s: Core, hash: Hash, a: Addr, it: Item, m': Memory)
    requires CoreOk(s, hash) && a !in s.heap && it.refcount == 1 && MemoryOk(s.heap[a := it], m')
    ensures CoreOk(Core(s.heap[a := it], s.t, s.keys, s.held + multiset{a}, m'), hash)
    ensures !Linked(s.heap[a := it], s.keys, a) && ValuesOf(s.heap[a := it], s.keys) == ValuesOf(s.heap, s.keys)
  {
    var heap', held' := s.heap[a := it], s.held + multiset{a};
    forall k | k in s.keys ensures s.keys[k] in s.heap { assert KeyOk(s.heap, s.t, s.keys, hash, k); }
    forall x: Addr ensures RefOk(heap', s.keys, held', x) { assert RefOk(s.heap, s.keys, s.held, x); }
    hide TableOk, MemoryOk;
    forall x: Addr ensures SameLinks(s.heap, heap', s.keys, x) { }
    TableFrame(s.heap, heap', s.t, s.keys, hash);
  }

  ghost predicate Open(m: Memory, s: SegId) {
    && s in m.segs && s in m.logs && s in m.owner && m.owner[s].InChain? && !m.segs[s].inactive
    && m.segs[s].offset <= m.segs[s].size && (m.segs[s].filler > 0 ==> m.segs[s].offset == m.segs[s].size)
  }

  /** The end of an open segment without room is written off. */
  lemma ClosedOk(s: Core, g: Alloc, lim: Limits, h: SegId)
    requires CoreOk(s, lim.hash) && Tidy(s.heap, s.m, g.ias, lim) && Open(s.m, h)
    requires s.m.segs[h].offset < s.m.segs[h].size
    ensures var m' := s.m.(segs := s.m.segs[h := Closed(s.m.segs[h])]);
            CoreOk(s.(m := m'), lim.hash) && Tidy(s.heap, m', g.ias, lim)
  {
    hide TableOk, RefsOk, MemoryOk, Tidy;
    ClosedMemory(s.heap, s.m, h);
    ClosedTidy(s.heap, s.m, g.ias, lim, h);
  }

  /** An item goes at the end of an open segment with room. */
  lemma PlacedOk(s: Core, g: Alloc, lim: Limits, h: SegId, it: Item)
    requires CoreOk(s, lim.hash) && Tidy(s.heap, s.m, g.ias, lim) && Open(s.m, h)
    requires TotalSize(it) <= s.m.segs[h].size - s.m.segs[h].offset
    requires it.hv == lim.hash(it.key) && TotalSize(it) <= lim.itemmax && it.refcount == 1
    ensures var a, m' := Addr(h, s.m.segs[h].offset), Placed(s.m, h, TotalSize(it));
            && a !in s.heap && Tidy(s.heap[a := it], m', g.ias, lim)
            && CoreOk(Core(s.heap[a := it], s.t, s.keys, s.held + multiset{a}, m'), lim.hash)
            && !Linked(s.heap[a := it], s.keys, a) && ValuesOf(s.heap[a := it], s.keys) == ValuesOf(s.heap, s.keys)
  {
    hide TableOk, RefsOk, MemoryOk, Tidy;
    PlacedMemory(s.heap, s.m, h, it);
    PlacedTidy(s.heap, s.m, g.ias, lim, h, it, Addr(h, s.m.segs[h].offset));
    NewItemOk(s, lim.hash, Addr(h, s.m.segs[h].offset), it, Placed(s.m, h, TotalSize(it)));
  }

  /** What the open segment at the end of a log is like. */
  lemma CurrentOpen(heap: Heap, g: Alloc, c: int)
    requires MemoryOk(heap, g.m) && Ok(g) && 0 <= c < |g.ias|
    ensures Open(g.m, g.ias[c].cur) && g.m.owner[g.ias[c].cur] == InChain(c)
  {
    var l, s := g.pools.chains[c], g.ias[c].cur;
    assert ChainOk(g.m, g.ias, g.pools, c) && LinkAt(g.m.segs, l, |l| - 1) && FlagAt(g.m.segs, l, |l| - 1);
    assert s in l && ListedOk(g.m, g.ias, g.pools, s) && SegOk(heap, g.m, s);
  }

  lemma AppendAll(s: Core, g: Alloc, lim: Limits, c: int, h: SegId)
    requires CoreOk(s, lim.hash) && g.m == s.m && Ok(g) && Tidy(s.heap, s.m, g.ias, lim)
    requires 0 <= c < |g.ias| && h in g.m.segs && h in g.m.owner && g.m.owner[h] == Loose && !g.m.segs[h].inactive
    requires g.ias[c].cur in g.m.segs && g.m.segs[g.ias[c].cur].offset == g.m.segs[g.ias[c].cur].size
    ensures |g.ias| == |g.pools.chains| && g.ias[c].cur != h
    ensures var g' := Append(g, c, h);
            CoreOk(s.(m := g'.m), lim.hash) && Ok(g') && Tidy(s.heap, g'.m, g'.ias, lim)
  {
    assert |g.ias| == |g.pools.chains|;
    hide TableOk, RefsOk, MemoryOk, Tidy, AllocOk, Append;
    KvAlloc.AppendOk(g, c, h);
    AppendMemory(s.heap, g, c, h);
    AppendTidy(s.heap, g, lim, c, h);
  }

  lemma ReserveAll(s: Core, g: Alloc, lim: Limits, c: int, h: Option<SegId>)
    requires CoreOk(s, lim.hash) && g.m == s.m && Ok(g) && Tidy(s.heap, s.m, g.ias, lim) && 0 <= c < |g.ias|
    requires h.Some? ==> g.ias[c].reserved == None && h.value in g.m.owner && g.m.owner[h.value] == Loose
    ensures var g' := Reserve(g, c, h);
            CoreOk(s.(m := g'.m), lim.hash) && Ok(g') && Tidy(s.heap, g'.m, g'.ias, lim)
    ensures g.ias[c].reserved.Some? ==> g.ias[c].reserved.value in g.m.segs
  {
    var r := g.ias[c].reserved;
    if r.Some? { assert ListedOk(g.m, g.ias, g.pools, r.value); }
    hide TableOk, RefsOk, MemoryOk, Tidy, AllocOk, Reserve;
    ReserveOk(s.heap, g, c, h);
    ReserveTidy(s.heap, g, lim, c, h);
  }

  lemma WorkTidy(heap: Heap, m: Memory, ias: seq<Allocator>, ias': seq<Allocator>, lim: Limits)
    requires Tidy(heap, m, ias, lim) && |ias'| == |ias| && forall c: int :: SameWalk(ias, ias', c)
    ensures Tidy(heap, m, ias', lim)
  {
    forall s: SegId ensures Kept(m, m, s) { }
    WalkFrame(m, m, ias, ias');
  }

  // ---- the references held by the cleanup queues ----

  function Queued(ias: seq<Allocator>): multiset<Addr> {
    if ias == [] then multiset{} else multiset(ias[0].queue) + Queued(ias[1..])
  }

  lemma {:induction false} QueuedUpdate(ias: seq<Allocator>, c: int, ia: Allocator)
    requires 0 <= c < |ias|
    ensures Queued(ias[c := ia]) + multiset(ias[c].queue) == Queued(ias) + multiset(ia.queue)
  {
    if c == 0 {
      assert ias[c := ia][1..] == ias[1..];
    } else {
      assert ias[c := ia][1..] == ias[1..][c - 1 := ia];
      QueuedUpdate(ias[1..], c - 1, ia);
      AddBoth(multiset(ias[0].queue), Queued(ias[1..]), Queued(ias[1..][c - 1 := ia]), multiset(ias[c].queue), multiset(ia.queue));
    }
  }

  lemma AddBoth(q: multiset<Addr>, r: multiset<Addr>, r': multiset<Addr>, was: multiset<Addr>, now: multiset<Addr>)
    requires r' + was == r + now
    ensures (q + r') + was == (q + r) + now
  {
    assert (q + r') + was == q + (r' + was) && (q + r) + now == q + (r + now);
  }

  lemma QueuedSame(ias: seq<Allocator>, c: int, ia: Allocator)
    requires 0 <= c < |ias| && ia.queue == ias[c].queue
    ensures Queued(ias[c := ia]) == Queued(ias)
  {
    QueuedUpdate(ias, c, ia);
    CancelRight(Queued(ias[c := ia]), Queued(ias), multiset(ia.queue));
  }

  lemma QueuedPop(ias: seq<Allocator>, c: int, ia: Allocator, others: multiset<Addr>)
    requires 0 <= c < |ias| && ias[c].queue != [] && ia.queue == ias[c].queue[1..]
    ensures var it := ias[c].queue[0];
            (Queued(ias) + others)[it] > 0 && Queued(ias) + others - multiset{it} == Queued(ias[c := ia]) + others
  {
    var it := ias[c].queue[0];
    QueuedUpdate(ias, c, ia);
    assert ias[c].queue == [it] + ia.queue;
    assert multiset(ias[c].queue) == multiset{it} + multiset(ia.queue);
    assert Queued(ias[c := ia]) + (multiset{it} + multiset(ia.queue)) == (Queued(ias[c := ia]) + multiset{it}) + multiset(ia.queue);
    CancelRight(Queued(ias[c := ia]) + multiset{it}, Queued(ias), multiset(ia.queue));
  }

  lemma CancelRight(a: multiset<Addr>, b: multiset<Addr>, x: multiset<Addr>)
    requires a + x == b + x
    ensures a == b
  {
    assert a == a + x - x && b == b + x - x;
  }

  lemma QueuedPush(ias: seq<Allocator>, c: int, ia: Allocator, more: seq<Addr>, others: multiset<Addr>)
    requires 0 <= c < |ias| && ia.queue == ias[c].queue + more
    ensures Queued(ias) + others + multiset(more) == Queued(ias[c := ia]) + others
  {
    QueuedUpdate(ias, c, ia);
    var q, m := multiset(ias[c].queue), multiset(more);
    assert multiset(ia.queue) == m + q;
    assert Queued(ias) + (m + q) == (Queued(ias) + m) + q;
    CancelRight(Queued(ias[c := ia]), Queued(ias) + m, q);
  }

  /** Every segment is in a log, in a reserve or free: none has been mislaid. */
  ghost predicate AllHome(owner: map<SegId, Owner>) {
    forall s :: s in owner ==> owner[s] != Loose
  }

  // ---- a new core ----

  function Joined(g: Alloc, h: SegId, r: SegId): Alloc
    requires h in g.m.segs && r in g.m.segs
  {
    var c := |g.ias|;
    var segs1 := g.m.segs[h := g.m.segs[h].(next := None)];
    Alloc(g.m.(segs := segs1[r := segs1[r].(next := None)], owner := g.m.owner[h := InChain(c)][r := InReserve(c)]),
          g.ias + [Allocator(h, h, Some(r), [], None, 0, 0)],
          g.pools.(chains := g.pools.chains + [[h]]), g.freeHead, g.alloced)
  }

  ghost predicate TwoLoose(g: Alloc, h: SegId, r: SegId) {
    h != r && h in g.m.segs && r in g.m.segs && h in g.m.owner && r in g.m.owner && g.m.owner[h] == Loose && g.m.owner[r] == Loose
  }

  lemma JoinedAlloc(g: Alloc, h: SegId, r: SegId)
    requires Ok(g) && TwoLoose(g, h, r) && !g.m.segs[h].inactive
    ensures Ok(Joined(g, h, r))
  {
    var g' := Joined(g, h, r);
    assert ListedOk(g.m, g.ias, g.pools, h) && ListedOk(g.m, g.ias, g.pools, r);
    OffList(g.m.segs, g'.m.segs, g.pools.free);
    forall c: int ensures ChainOk(g'.m, g'.ias, g'.pools, c) {
      assert ChainOk(g.m, g.ias, g.pools, c);
      if 0 <= c < |g.ias| { OffList(g.m.segs, g'.m.segs, g.pools.chains[c]); }
    }
    forall s: SegId ensures OwnerOk(g'.m, g'.ias, g'.pools, s) && ListedOk(g'.m, g'.ias, g'.pools, s) {
      assert OwnerOk(g.m, g.ias, g.pools, s) && ListedOk(g.m, g.ias, g.pools, s);
    }
  }

  lemma JoinedMemory(heap: Heap, g: Alloc, h: SegId, r: SegId)
    requires MemoryOk(heap, g.m) && TwoLoose(g, h, r)
    ensures MemoryOk(heap, Joined(g, h, r).m)
  {
    var m' := Joined(g, h, r).m;
    forall s: SegId ensures SegOk(heap, m', s) {
      assert SegOk(heap, g.m, s);
      if (s == h || s == r) { LogFrame(heap, heap, g.m.segs[s], m'.segs[s], s, g.m.logs[s]); }
    }
    forall a: Addr ensures AddrOk(heap, m', a) { assert AddrOk(heap, g.m, a); }
  }

  lemma JoinedOk(s: Core, g: Alloc, lim: Limits, h: SegId, r: SegId)
    requires CoreOk(s, lim.hash) && g.m == s.m && Ok(g) && Tidy(s.heap, s.m, g.ias, lim) && TwoLoose(g, h, r) && !g.m.segs[h].inactive
    ensures var g' := Joined(g, h, r);
            CoreOk(s.(m := g'.m), lim.hash) && Ok(g') && Tidy(s.heap, g'.m, g'.ias, lim)
  {
    var g' := Joined(g, h, r);
    forall x: SegId ensures HeaderOk(g'.m.segs, lim, x) { assert HeaderOk(g.m.segs, lim, x); }
    forall c: int ensures WalkOk(g'.m, g'.ias, c) { assert WalkOk(g.m, g.ias, c); }
    hide TableOk, RefsOk, MemoryOk, AllocOk;
    JoinedAlloc(g, h, r);
    JoinedMemory(s.heap, g, h, r);
  }
}
