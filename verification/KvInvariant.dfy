/**
 The invariant of the FlexKVS store beyond its table: reference counts, segment accounts, and the
 ownership of segments by the cores' allocators, with the frame rules its operations share.
 */
module KvInvariant {
  import opened Basics
  import opened KvTable
  import opened KvLog

  // ---- references ----

  ghost predicate RefOk(heap: Heap, keys: map<Bytes, Addr>, held: multiset<Addr>, a: Addr) {
    if a in heap
    then heap[a].refcount == (if Linked(heap, keys, a) then 1 else 0) + held[a]
    else held[a] == 0
  }

  /** Every count is the table's link, if any, plus the references held by threads and cleanup queues. */
  ghost predicate RefsOk(heap: Heap, keys: map<Bytes, Addr>, held: multiset<Addr>) {
    forall a: Addr :: RefOk(heap, keys, held, a)
  }

  // ---- segments ----

  /** Who has a segment: a core's log, a core's reserve, the free list, or the thread that is allocating it. */
  datatype Owner = InChain(core: int) | InReserve(core: int) | Free | Loose

  /** Segment headers, the items laid out in each, and the owner of each. */
  datatype Memory = Memory(segs: map<SegId, Segment>, logs: map<SegId, Log>, owner: map<SegId, Owner>)

  ghost predicate SegOk(heap: Heap, m: Memory, s: SegId) {
    s in m.segs ==>
      && s in m.logs && s in m.owner && m.segs[s].size > 0
      && (m.owner[s] == Free ==> m.logs[s] == [])
      && (m.owner[s] != Free ==> LogOk(heap, m.segs[s], s, m.logs[s]))
      && (m.owner[s].InReserve? || m.owner[s].Loose? ==> m.logs[s] == [] && m.segs[s].offset == 0 && !m.segs[s].inactive)
  }

  ghost predicate AddrOk(heap: Heap, m: Memory, a: Addr) {
    a in heap ==> a.seg in m.segs && a.seg in m.owner && m.owner[a.seg] != Free && a.seg in m.logs && a.off in m.logs[a.seg]
  }

  /** The items are exactly those laid out in segments that are not free. */
  ghost predicate MemoryOk(heap: Heap, m: Memory) {
    (forall s: SegId :: SegOk(heap, m, s)) && (forall a: Addr :: AddrOk(heap, m, a))
  }

  // ---- frame rules ----

  /** heap' has the same items, of the same size and liveness. */
  ghost predicate SameShape(heap: Heap, heap': Heap, a: Addr) {
    && (a in heap <==> a in heap')
    && (a in heap ==> TotalSize(heap'[a]) == TotalSize(heap[a]) && (heap'[a].refcount > 0 <==> heap[a].refcount > 0))
  }

  lemma MemoryFrame(heap: Heap, heap': Heap, m: Memory)
    requires MemoryOk(heap, m) && forall a: Addr :: SameShape(heap, heap', a)
    ensures MemoryOk(heap', m)
  {
    forall s: SegId ensures SegOk(heap', m, s) {
      assert SegOk(heap, m, s);
      if s in m.segs && m.owner[s] != Free {
        forall off | off in m.logs[s]
          ensures (Addr(s, off) in heap ==> Addr(s, off) in heap')
          ensures SizeAt(heap', s, off) == SizeAt(heap, s, off) && LiveAt(heap', s, off) == LiveAt(heap, s, off)
        {
          assert SameShape(heap, heap', Addr(s, off));
        }
        LogFrame(heap, heap', m.segs[s], m.segs[s], s, m.logs[s]);
      }
    }
    forall a: Addr ensures AddrOk(heap', m, a) { assert AddrOk(heap, m, a) && SameShape(heap, heap', a); }
  }

  /** One more reference to an item that already has one. */
  lemma RefMemory(heap: Heap, m: Memory, a: Addr, n: nat)
    requires MemoryOk(heap, m) && a in heap && heap[a].refcount > 0 && n > 0
    ensures MemoryOk(heap[a := heap[a].(refcount := n)], m)
  {
    var heap' := heap[a := heap[a].(refcount := n)];
    forall x: Addr ensures SameShape(heap, heap', x) { }
    MemoryFrame(heap, heap', m);
  }

  function Credit(m: Memory, s: SegId, bytes: nat): Memory
    requires s in m.segs
  {
    m.(segs := m.segs[s := m.segs[s].(freed := m.segs[s].freed + bytes)])
  }

  /** The last reference goes: the item's bytes are credited to its segment. */
  lemma DeathMemory(heap: Heap, m: Memory, a: Addr)
    requires MemoryOk(heap, m) && a in heap && heap[a].refcount == 1
    ensures AddrOk(heap, m, a)
    ensures MemoryOk(heap[a := heap[a].(refcount := 0)], Credit(m, a.seg, TotalSize(heap[a])))
  {
    assert AddrOk(heap, m, a);
    var heap', m' := heap[a := heap[a].(refcount := 0)], Credit(m, a.seg, TotalSize(heap[a]));
    forall s: SegId ensures SegOk(heap', m', s) {
      assert SegOk(heap, m, s);
      if s in m.segs && m.owner[s] != Free {
        forall off | off in m.logs[s] ensures Addr(s, off) in heap {
          assert TileOk(heap, m.segs[s], s, m.logs[s], IndexOf(m.logs[s], off));
        }
        if s == a.seg {
          assert Addr(s, a.off) == a;
          FreeOk(heap, heap', m.segs[s], s, m.logs[s], a.off);
        } else {
          LogFrame(heap, heap', m.segs[s], m.segs[s], s, m.logs[s]);
        }
      }
    }
    forall x: Addr ensures AddrOk(heap', m', x) { assert AddrOk(heap, m, x); }
  }

  // ---- allocation inside a segment ----

  /** A new item of size total at the end of segment s. */
  function Placed(m: Memory, s: SegId, total: nat): Memory
    requires s in m.segs && s in m.logs
  {
    m.(segs := m.segs[s := m.segs[s].(offset := m.segs[s].offset + total)],
       logs := m.logs[s := m.logs[s] + [m.segs[s].offset]])
  }

  ghost predicate Roomy(m: Memory, s: SegId, total: nat) {
    && s in m.segs && s in m.logs && s in m.owner && m.owner[s].InChain?
    && !m.segs[s].inactive && m.segs[s].filler == 0 && m.segs[s].offset + total <= m.segs[s].size
  }

  /** Memory past the offset belongs to no item, so the new address is unused. */
  lemma FreshAddress(heap: Heap, m: Memory, s: SegId)
    requires MemoryOk(heap, m) && s in m.segs && s in m.owner && m.owner[s] != Free && m.segs[s].filler == 0
    ensures Addr(s, m.segs[s].offset) !in heap
  {
    var a := Addr(s, m.segs[s].offset);
    if a in heap {
      assert AddrOk(heap, m, a) && SegOk(heap, m, s);
      LogBounds(heap, m.segs[s], s, m.logs[s], IndexOf(m.logs[s], a.off));
    }
  }

  lemma PlacedMemory(heap: Heap, m: Memory, s: SegId, it: Item)
    requires MemoryOk(heap, m) && Roomy(m, s, TotalSize(it)) && it.refcount > 0
    ensures var a := Addr(s, m.segs[s].offset);
            a !in heap && MemoryOk(heap[a := it], Placed(m, s, TotalSize(it)))
  {
    FreshAddress(heap, m, s);
    var a := Addr(s, m.segs[s].offset);
    var heap', m' := heap[a := it], Placed(m, s, TotalSize(it));
    forall x: SegId ensures SegOk(heap', m', x) {
      assert SegOk(heap, m, x);
      if x in m.segs && m.owner[x] != Free {
        forall off | off in m.logs[x] ensures Addr(x, off) in heap {
          assert TileOk(heap, m.segs[x], x, m.logs[x], IndexOf(m.logs[x], off));
        }
        if x == s {
          AppendOk(heap, heap', m.segs[s], s, m.logs[s], TotalSize(it));
        } else {
          LogFrame(heap, heap', m.segs[x], m.segs[x], x, m.logs[x]);
        }
      }
    }
    forall x: Addr ensures AddrOk(heap', m', x) { assert AddrOk(heap, m, x); }
  }

  lemma ClosedMemory(heap: Heap, m: Memory, s: SegId)
    requires MemoryOk(heap, m) && Roomy(m, s, 0) && m.segs[s].offset < m.segs[s].size
    ensures MemoryOk(heap, m.(segs := m.segs[s := Closed(m.segs[s])]))
  {
    var m' := m.(segs := m.segs[s := Closed(m.segs[s])]);
    forall x: SegId ensures SegOk(heap, m', x) {
      assert SegOk(heap, m, x);
      if x == s { CloseOk(heap, m.segs[s], s, m.logs[s]); }
    }
    forall a: Addr ensures AddrOk(heap, m', a) { assert AddrOk(heap, m, a); }
  }

  // ---- recycling ----

  /** The heap without the items of segment s. */
  function Dropped(heap: Heap, s: SegId): Heap { map a | a in heap && a.seg != s :: heap[a] }

  /** A recycled segment held only dead items, and nothing in the store can reach them. */
  lemma RecycledItemsUnreachable(heap: Heap, m: Memory, keys: map<Bytes, Addr>, held: multiset<Addr>, s: SegId, a: Addr)
    requires MemoryOk(heap, m) && RefsOk(heap, keys, held)
    requires s in m.segs && s in m.owner && m.owner[s] != Free && m.segs[s].inactive && m.segs[s].freed == m.segs[s].size
    requires a in heap && a.seg == s
    ensures heap[a].refcount == 0 && !Linked(heap, keys, a) && held[a] == 0
  {
    assert SegOk(heap, m, s) && AddrOk(heap, m, a) && RefOk(heap, keys, held, a);
    RecyclableIffDead(heap, m.segs[s], s, m.logs[s]);
    assert Addr(s, a.off) == a;
    assert Unreferenced(heap, Addr(s, a.off));
  }

  function Recycled(m: Memory, s: SegId, next: Option<SegId>): Memory
    requires s in m.segs
  {
    Memory(m.segs[s := m.segs[s].(offset := 0, next := next)], m.logs[s := []], m.owner[s := Free])
  }

  lemma RecycledMemory(heap: Heap, m: Memory, s: SegId, next: Option<SegId>)
    requires MemoryOk(heap, m) && s in m.segs
    ensures MemoryOk(Dropped(heap, s), Recycled(m, s, next))
  {
    var heap', m' := Dropped(heap, s), Recycled(m, s, next);
    forall x: SegId ensures SegOk(heap', m', x) {
      assert SegOk(heap, m, x);
      if x in m.segs && x != s && m.owner[x] != Free {
        LogFrame(heap, heap', m.segs[x], m.segs[x], x, m.logs[x]);
      }
    }
    forall a: Addr ensures AddrOk(heap', m', a) { assert AddrOk(heap, m, a); }
  }

  lemma RecycledRefs(heap: Heap, m: Memory, keys: map<Bytes, Addr>, held: multiset<Addr>, s: SegId)
    requires MemoryOk(heap, m) && RefsOk(heap, keys, held)
    requires s in m.segs && s in m.owner && m.owner[s] != Free && m.segs[s].inactive && m.segs[s].freed == m.segs[s].size
    ensures RefsOk(Dropped(heap, s), keys, held)
    ensures forall a: Addr :: SameLinks(heap, Dropped(heap, s), keys, a)
  {
    forall a: Addr ensures RefOk(Dropped(heap, s), keys, held, a) && SameLinks(heap, Dropped(heap, s), keys, a) {
      assert RefOk(heap, keys, held, a);
      if a in heap && a.seg == s { RecycledItemsUnreachable(heap, m, keys, held, s, a); }
    }
  }

  // ---- ownership ----

  /** One core's allocator: its log from oldest to current segment, its reserve, its cleanup queue and walk. */
  datatype Allocator = Allocator(
    oldest: SegId, cur: SegId, reserved: Option<SegId>, queue: seq<Addr>,
    cleaning: Option<SegId>, cleanOffset: int, cleanupCount: nat)

  /** The segments of each core's log, and of the free list, in link order. */
  datatype Pools = Pools(chains: seq<seq<SegId>>, free: seq<SegId>)

  /** `next` links the i-th segment of a list to the one after it. */
  ghost predicate LinkAt(segs: map<SegId, Segment>, l: seq<SegId>, i: int) {
    0 <= i < |l| ==> l[i] in segs && segs[l[i]].next == if i + 1 < |l| then Some(l[i + 1]) else None
  }

  /** Core c's log: oldest first, closed for good up to the current segment. */
  ghost predicate ChainOk(m: Memory, ias: seq<Allocator>, pools: Pools, c: int) {
    0 <= c < |ias| && c < |pools.chains| ==>
      var l := pools.chains[c];
      && l != [] && NoDup(l) && l[0] == ias[c].oldest && l[|l| - 1] == ias[c].cur
      && (forall i: int :: LinkAt(m.segs, l, i))
      && (forall i: int :: FlagAt(m.segs, l, i))
  }

  /** All segments of a log but the current one are inactive. */
  ghost predicate FlagAt(segs: map<SegId, Segment>, l: seq<SegId>, i: int) {
    0 <= i < |l| && l[i] in segs ==> (segs[l[i]].inactive <==> i + 1 < |l|)
  }

  ghost predicate OwnerOk(m: Memory, ias: seq<Allocator>, pools: Pools, s: SegId) {
    && (s in m.segs <==> s in m.owner)
    && (s in m.owner ==>
          match m.owner[s]
          case InChain(c) => 0 <= c < |pools.chains| && s in pools.chains[c]
          case InReserve(c) => 0 <= c < |ias| && ias[c].reserved == Some(s)
          case Free => s in pools.free
          case Loose => true)
  }

  /** A list has only segments that are owned as its members. */
  ghost predicate ListedOk(m: Memory, ias: seq<Allocator>, pools: Pools, s: SegId) {
    && (s in pools.free ==> s in m.owner && m.owner[s] == Free)
    && (forall c :: 0 <= c < |pools.chains| && s in pools.chains[c] ==> s in m.owner && m.owner[s] == InChain(c))
    && (forall c :: 0 <= c < |ias| && ias[c].reserved == Some(s) ==> s in m.owner && m.owner[s] == InReserve(c))
  }

  ghost predicate AllocOk(m: Memory, ias: seq<Allocator>, pools: Pools, freeHead: Option<SegId>, alloced: nat) {
    && |ias| == |pools.chains|
    && NoDup(pools.free) && freeHead == (if pools.free == [] then None else Some(pools.free[0]))
    && (forall i: int :: LinkAt(m.segs, pools.free, i))
    && (forall c: int :: ChainOk(m, ias, pools, c))
    && (forall s: SegId :: OwnerOk(m, ias, pools, s))
    && (forall s: SegId :: ListedOk(m, ias, pools, s))
    && (forall s: SegId :: s in m.segs <==> 0 <= s < alloced)
  }

  /** Chains, reserves and free list are disjoint: a segment has one owner. */
  lemma PoolsDisjoint(m: Memory, ias: seq<Allocator>, pools: Pools, freeHead: Option<SegId>, alloced: nat, s: SegId, c: int, d: int)
    requires AllocOk(m, ias, pools, freeHead, alloced) && 0 <= c < |ias| && 0 <= d < |ias|
    ensures s in pools.chains[c] && s in pools.chains[d] ==> c == d
    ensures !(s in pools.chains[c] && s in pools.free)
    ensures ias[c].reserved == Some(s) ==> s !in pools.free && s !in pools.chains[d] && (ias[d].reserved == Some(s) ==> c == d)
  {
    assert ListedOk(m, ias, pools, s);
  }

  /** Headers that differ at most in their freed bytes. */
  ghost predicate SameHeader(m: Memory, m': Memory, s: SegId) {
    s in m.segs ==> s in m'.segs && m'.segs[s] == m.segs[s].(freed := m'.segs[s].freed)
  }

  /** Nothing but freed bytes has changed. */
  ghost predicate OnlyFreed(m: Memory, m': Memory) {
    m'.owner == m.owner && m'.logs == m.logs && m'.segs.Keys == m.segs.Keys && forall s: SegId :: SameHeader(m, m', s)
  }

  lemma OnlyFreedTransitive(m1: Memory, m2: Memory, m3: Memory)
    requires OnlyFreed(m1, m2) && OnlyFreed(m2, m3)
    ensures OnlyFreed(m1, m3)
  {
    forall s: SegId ensures SameHeader(m1, m3, s) { assert SameHeader(m1, m2, s) && SameHeader(m2, m3, s); }
  }

  lemma LinksFrame(m: Memory, m': Memory, l: seq<SegId>)
    requires m'.segs.Keys == m.segs.Keys && forall s: SegId :: SameHeader(m, m', s)
    ensures (forall i: int :: LinkAt(m.segs, l, i)) ==> forall i: int :: LinkAt(m'.segs, l, i)
    ensures (forall i: int :: FlagAt(m.segs, l, i)) ==> forall i: int :: FlagAt(m'.segs, l, i)
  {
    forall i: int
      ensures LinkAt(m.segs, l, i) ==> LinkAt(m'.segs, l, i)
      ensures FlagAt(m.segs, l, i) ==> FlagAt(m'.segs, l, i)
    {
      if 0 <= i < |l| { assert SameHeader(m, m', l[i]); }
    }
  }

  /** What AllocOk reads of a segment header is its link and its flag. */
  lemma AllocFrame(m: Memory, m': Memory, ias: seq<Allocator>, ias': seq<Allocator>, pools: Pools, freeHead: Option<SegId>, alloced: nat)
    requires AllocOk(m, ias, pools, freeHead, alloced)
    requires m'.owner == m.owner && m'.segs.Keys == m.segs.Keys
    requires forall s: SegId :: SameHeader(m, m', s)
    requires |ias'| == |ias|
    requires forall c :: 0 <= c < |ias| ==>
               ias'[c].oldest == ias[c].oldest && ias'[c].cur == ias[c].cur && ias'[c].reserved == ias[c].reserved
    ensures AllocOk(m', ias', pools, freeHead, alloced)
  {
    LinksFrame(m, m', pools.free);
    forall c: int ensures ChainOk(m', ias', pools, c) {
      assert ChainOk(m, ias, pools, c);
      if 0 <= c < |ias| { LinksFrame(m, m', pools.chains[c]); }
    }
    forall s: SegId ensures OwnerOk(m', ias', pools, s) { assert OwnerOk(m, ias, pools, s); }
    forall s: SegId ensures ListedOk(m', ias', pools, s) { assert ListedOk(m, ias, pools, s); }
  }
}
