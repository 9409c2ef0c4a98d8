/**
 The FlexKVS store as its worker threads run it: item heap, bucket table, segments and per-core
 allocators, updated in place. Ghost state names the abstract map, the references held outside the
 table, and the owner of every segment.
 */
module KvStore {
  import opened Basics
  import opened KvTable
  import opened KvLog
  import opened KvInvariant
  import opened KvCore
  import opened KvAlloc
  import opened KvIalloc
  import opened KvWalk

  class KvStore {
    const hash: Hash
    const segsize: nat
    const segmaxnum: nat
    const segcqsize: nat
    const itemmax: nat
    const cleanRatio: real

    var heap: Heap
    var buckets: seq<Bucket>
    var segs: map<SegId, Segment>
    var alloced: nat
    var freeHead: Option<SegId>
    var ias: seq<Allocator>

    ghost var chains: seq<seq<Addr>>
    ghost var keys: map<Bytes, Addr>
    ghost var held: multiset<Addr>
    ghost var logs: map<SegId, Log>
    ghost var owner: map<SegId, Owner>
    ghost var pools: Pools

    ghost function T(): Table
      reads this
    {
      Table(buckets, chains)
    }

    ghost function M(): Memory
      reads this
    {
      Memory(segs, logs, owner)
    }

    ghost function C(): Core
      reads this
    {
      Core(heap, T(), keys, held, M())
    }

    /** Segments, lists and allocators. */
    ghost function G(): Alloc
      reads this
    {
      Alloc(M(), ias, pools, freeHead, alloced)
    }

    ghost function Now(): Snapshot
      reads this
    {
      Snapshot(C(), G())
    }

    ghost function Cfg(): Settings {
      Settings(hash, segsize, segmaxnum, segcqsize, cleanRatio)
    }

    ghost function Lim(): Limits {
      Limits(hash, segsize, itemmax)
    }

    ghost function View(): map<Bytes, Bytes>
      reads this
    {
      ValuesOf(heap, keys)
    }

    ghost predicate Valid()
      reads this
    {
      && |buckets| == |chains| && |buckets| > 0
      && CoreOk(C(), hash)
      && AllocOk(M(), ias, pools, freeHead, alloced)
      && alloced <= segmaxnum && itemmax < segsize
      && Tidy(heap, M(), ias, Lim())
    }

    /** `ialloc_init` and an empty table; the worker threads then add their allocators. */
    constructor (hash: Hash, nbuckets: nat, segsize: nat, segmaxnum: nat, segcqsize: nat, itemmax: nat, cleanRatio: real)
      requires nbuckets > 0 && itemmax < segsize
      ensures Settled(this, multiset{}) && View() == map[] && keys == map[] && held == multiset{} && G() == NOTHING
      ensures this.hash == hash && this.segsize == segsize && this.segmaxnum == segmaxnum && this.segcqsize == segcqsize
      ensures this.itemmax == itemmax && this.cleanRatio == cleanRatio
    {
      this.hash, this.segsize, this.segmaxnum, this.segcqsize := hash, segsize, segmaxnum, segcqsize;
      this.itemmax, this.cleanRatio := itemmax, cleanRatio;
      heap, segs, alloced, freeHead, ias := map[], map[], 0, None, [];
      buckets := seq(nbuckets, _ => EmptyBucket());
      chains, keys, held, logs, owner := seq(nbuckets, _ => []), map[], multiset{}, map[], map[];
      pools := Pools([], []);
    }

    /** `ialloc_init_allocator`: a current segment and a reserve, or failure where the source aborts. */
    method AddCore() returns (ok: bool)
      requires Valid()
      modifies this`segs, this`alloced, this`freeHead, this`ias, this`logs, this`owner, this`pools
      ensures Valid()
      ensures ok ==> && |ias| == |old(ias)| + 1 && ias[..|old(ias)|] == old(ias)
                     && ias[|old(ias)|].queue == [] && ias[|old(ias)|].cleaning == None && ias[|old(ias)|].reserved.Some?
                     && (AllHome(old(owner)) ==> AllHome(owner))
      ensures !ok ==> ias == old(ias)
      ensures ok <==> !Exhausted(old(G()), segmaxnum) && !Exhausted(Obtained(old(G()), segsize), segmaxnum)
      ensures ok ==> G() == WithCore(old(G()), segsize)
    {
      hide Valid, CoreOk, AllocOk, Tidy, Obtained, Joined;
      var h := SegmentAlloc();
      if h == None {
        return false;
      }
      var r := SegmentAlloc();
      if r == None {
        return false;
      }
      Join(h.value, r.value);
      ok := true;
    }

    method Join(h: SegId, r: SegId)
      requires Valid() && TwoLoose(G(), h, r)
      modifies this`segs, this`ias, this`owner, this`pools
      ensures Valid() && ias == old(ias) + [Allocator(h, h, Some(r), [], None, 0, 0)]
      ensures owner == old(owner)[h := InChain(|old(ias)|)][r := InReserve(|old(ias)|)]
      ensures G() == Joined(old(G()), h, r)
    {
      hide CoreOk, AllocOk, Tidy;
      LooseIsEmpty(h);
      ghost var s, g := C(), G();
      JoinedOk(s, g, Lim(), h, r);
      segs := segs[h := segs[h].(next := None)];
      segs := segs[r := segs[r].(next := None)];
      owner := owner[h := InChain(|ias|)][r := InReserve(|ias|)];
      ias := ias + [Allocator(h, h, Some(r), [], None, 0, 0)];
      pools := pools.(chains := pools.chains + [[h]]);
      assert G() == Joined(g, h, r);
    }

    /** Headers that differ only in their freed bytes leave the allocators and the walks alone. */
    lemma Reframe(heap0: Heap, m: Memory)
      requires AllocOk(m, ias, pools, freeHead, alloced) && Tidy(heap0, m, ias, Lim())
      requires M().owner == m.owner && M().logs == m.logs && M().segs.Keys == m.segs.Keys
      requires SameItems(heap0, heap) && forall s: SegId :: SameHeader(m, M(), s)
      ensures AllocOk(M(), ias, pools, freeHead, alloced) && Tidy(heap, M(), ias, Lim())
    {
      hide AllocOk, Tidy, SameItems;
      AllocFrame(m, M(), ias, ias, pools, freeHead, alloced);
      TidyFrame(heap0, heap, m, M(), ias, Lim());
    }

    // ---- reference counts ----

    /** `item_ref`, by a thread that will hold the reference. */
    method ItemRef(a: Addr)
      requires Valid() && a in heap && heap[a].refcount > 0
      modifies this`heap, this`held
      ensures Valid() && C() == RefCore(old(C()), a) && SameItems(old(heap), heap)
    {
      ghost var s := C();
      RefCoreOk(C(), hash, a);
      hide CoreOk, AllocOk, Tidy;
      CountedSame(heap, a, heap[a].refcount + 1);
      heap := Counted(heap, a, heap[a].refcount + 1);
      held := held + multiset{a};
      Reframe(s.heap, s.m);
    }

    /** `item_unref`, with `ialloc_free` when the last reference goes. */
    method ItemUnref(a: Addr)
      requires Valid() && held[a] > 0
      modifies this`heap, this`held, this`segs
      ensures a in old(heap) && old(heap)[a].refcount > 0
      ensures Valid() && C() == UnrefCore(old(C()), a) && SameItems(old(heap), heap) && OnlyFreed(old(M()), M())
    {
      ghost var s := C();
      UnrefCoreOk(s, hash, a);
      hide CoreOk, AllocOk, Tidy;
      assert heap[a].refcount > 0;
      CountedSame(heap, a, heap[a].refcount - 1);
      held := held - multiset{a};
      Drop(a);
      assert C() == UnrefCore(s, a);
      Reframe(s.heap, s.m);
    }

    /** The count of a goes down by one; at zero its bytes are credited to its segment. */
    method Drop(a: Addr)
      requires a in heap && heap[a].refcount > 0 && a.seg in segs
      modifies this`heap, this`segs
      ensures heap == Counted(old(heap), a, old(heap)[a].refcount - 1)
      ensures M() == Debited(old(M()), old(heap), a)
    {
      heap := Counted(heap, a, heap[a].refcount - 1);
      if heap[a].refcount == 0 {
        segs := segs[a.seg := segs[a.seg].(freed := segs[a.seg].freed + TotalSize(heap[a]))];
      }
    }

    // ---- hashtable.c ----

    /** The loop over the five slots: where the key is, and the last empty slot seen. */
    method ScanSlots(key: Bytes, hv: nat) returns (slot: Option<nat>, direct: Option<nat>)
      requires Valid() && hv == hash(key)
      ensures var b := BucketOf(hv, |buckets|);
              && ShapeOk(T(), b)
              && (slot.Some? ==> slot.value < BUCKET_NITEMS && Hits(heap, T(), b, slot.value, key))
              && (slot == None ==> forall j :: 0 <= j < BUCKET_NITEMS ==> Misses(heap, T(), b, j, key))
              && (direct.Some? ==> direct.value < BUCKET_NITEMS && At(T(), b, direct.value) == None)
              && (slot == None && direct == None ==> At(T(), b, LAST_SLOT).Some?)
    {
      hide MemoryOk, AllocOk, RefsOk, Tidy;
      var b := BucketOf(hv, |buckets|);
      assert ShapeOk(T(), b);
      slot, direct := None, None;
      for i := 0 to BUCKET_NITEMS
        invariant forall j :: 0 <= j < i ==> Misses(heap, T(), b, j, key)
        invariant direct.Some? ==> direct.value < i && At(T(), b, direct.value) == None
        invariant direct == None && i > LAST_SLOT ==> At(T(), b, LAST_SLOT).Some?
      {
        assert PositionOk(heap, T(), keys, hash, b, i);
        assert At(T(), b, i) == buckets[b].items[i] && HashAt(T(), b, i) == buckets[b].hashes[i];
        if buckets[b].items[i] == None {
          direct := Some(i);
        } else if buckets[b].hashes[i] == hv {
          var it := buckets[b].items[i].value;
          if heap[it].key == key {
            slot := Some(i);
            return;
          }
        }
      }
    }

    /** The loop over the overflow chain: the item with the key and the item linked to it. */
    method ScanChain(key: Bytes, hv: nat) returns (found: Option<Addr>, prev: Option<Addr>, ghost j: int)
      requires Valid() && hv == hash(key)
      requires forall i :: 0 <= i < BUCKET_NITEMS ==> Misses(heap, T(), BucketOf(hv, |buckets|), i, key)
      ensures var b := BucketOf(hv, |buckets|);
              && (found == None ==> key !in keys)
              && (found.Some? ==>
                    && BUCKET_NITEMS <= j && At(T(), b, j) == found && Hits(heap, T(), b, j, key)
                    && prev.Some? && At(T(), b, j - 1) == prev && prev.value in heap)
    {
      hide MemoryOk, AllocOk, RefsOk, Tidy;
      var b := BucketOf(hv, |buckets|);
      assert ShapeOk(T(), b);
      j := BUCKET_NITEMS;
      assert At(T(), b, LAST_SLOT) == buckets[b].items[LAST_SLOT];
      found, prev := None, buckets[b].items[LAST_SLOT];
      if prev.Some? {
        assert PositionOk(heap, T(), keys, hash, b, LAST_SLOT);
        found := heap[prev.value].next;
        while found.Some?
          invariant BUCKET_NITEMS <= j <= BUCKET_NITEMS + |chains[b]|
          invariant found == At(T(), b, j) && prev.Some? && prev == At(T(), b, j - 1) && prev.value in heap
          invariant forall i :: 0 <= i < j ==> Misses(heap, T(), b, i, key)
          decreases BUCKET_NITEMS + |chains[b]| - j
        {
          assert PositionOk(heap, T(), keys, hash, b, j);
          if heap[found.value].hv == hv && heap[found.value].key == key {
            return;
          }
          prev := found;
          found := heap[found.value].next;
          j := j + 1;
        }
      }
      NothingAt(heap, T(), keys, hash, key, j);
    }

    /** The search of `hasht_get`. */
    method Find(key: Bytes, hv: nat) returns (found: Option<Addr>)
      requires Valid() && hv == hash(key)
      ensures found == if key in keys then Some(keys[key]) else None
    {
      hide MemoryOk, AllocOk, RefsOk, Tidy;
      var slot, _ := ScanSlots(key, hv);
      var b := BucketOf(hv, |buckets|);
      if slot.Some? {
        found := buckets[b].items[slot.value];
        HitIsMapped(heap, T(), keys, hash, b, slot.value, key);
      } else {
        var prev;
        ghost var j;
        found, prev, j := ScanChain(key, hv);
        if found.Some? { HitIsMapped(heap, T(), keys, hash, b, j, key); }
      }
    }

    /** `hasht_get`: the caller receives a reference. */
    method HashtGet(key: Bytes, hv: nat) returns (found: Option<Addr>)
      requires Valid() && hv == hash(key)
      modifies this`heap, this`held
      ensures Valid() && SameItems(old(heap), heap)
      ensures found == if key in keys then Some(keys[key]) else None
      ensures found == None ==> C() == old(C())
      ensures found.Some? ==>
                && found.value in old(heap) && old(heap)[found.value].key == key && old(heap)[found.value].refcount > 0
                && C() == RefCore(old(C()), found.value)
    {
      found := Find(key, hv);
      if found.Some? {
        assert KeyOk(heap, T(), keys, hash, key) && RefOk(heap, keys, held, found.value);
        ItemRef(found.value);
      }
    }

    /**
     `hasht_put`. Without cas the key now maps to nit; with cas it does so only if cas is the item in
     one of the slots for that key: an item on the chain is never replaced by compare-and-set.
     */
    method HashtPut(nit: Addr, cas: Option<Addr>)
      requires Valid() && held[nit] > 0 && Insertable(heap, keys, hash, nit)
      modifies this`heap, this`buckets, this`segs, this`chains, this`keys
      ensures Valid() && SameItems(old(heap), heap) && nit in old(heap)
      ensures OnlyFreed(old(M()), M())
      ensures keys == if cas == None || InSlot(old(T()), old(heap), old(heap)[nit].key, hash, cas.value)
                      then old(keys)[old(heap)[nit].key := nit] else old(keys)
    {
      hide MemoryOk, AllocOk, RefsOk, Tidy, TableOk;
      var hv, key := heap[nit].hv, heap[nit].key;
      var b := BucketOf(hv, |buckets|);
      var slot, direct := ScanSlots(key, hv);
      if slot.Some? {
        var it := buckets[b].items[slot.value].value;
        if cas.Some? && cas.value != it {
          OnlyInSlot(heap, T(), keys, hash, key, slot.value, cas.value);
          return;
        }
        MemberKept(heap, T(), keys, hash, b, slot.value, nit);
        assert nit != it;
        ReplaceItem(nit, b, slot.value, it);
        return;
      }
      if cas.Some? {
        NotInSlot(heap, T(), key, hash, cas.value);
        return;
      }
      var it, prev;
      ghost var j;
      it, prev, j := ScanChain(key, hv);
      if it.Some? {
        ReplaceChained(nit, b, j, it.value, prev.value);
      } else if direct.Some? {
        FillSlot(nit, b, direct.value);
      } else {
        PushSlot(nit, b);
      }
    }

    /** The matching item is in slot i: nit takes its place and its chain. */
    method ReplaceItem(nit: Addr, b: int, i: nat, it: Addr)
      requires Valid() && Ready(C(), hash, nit, b)
      requires i < BUCKET_NITEMS && At(T(), b, i) == Some(it) && Hits(heap, T(), b, i, heap[nit].key)
      modifies this`heap, this`buckets, this`segs, this`keys
      ensures Valid() && SameItems(old(heap), heap) && nit in old(heap)
      ensures OnlyFreed(old(M()), M())
      ensures keys == old(keys)[old(heap)[nit].key := nit]
    {
      hide CoreOk, AllocOk, At, BucketOf, SameItems, Replaced, Debited, Hits, Tidy;
      ghost var s := C();
      ReplacedOk(s, hash, b, i, nit, it);
      ReplacedParts(s, hash, b, i, nit, it);
      heap := Counted(heap, nit, heap[nit].refcount + 1);
      heap := SetNext(heap, nit, heap[it].next);
      buckets := buckets[b := buckets[b].(items := buckets[b].items[i := Some(nit)])];
      keys := keys[heap[nit].key := nit];
      Drop(it);
      assert C() == Replaced(s, b, i, nit, it);
      Reframe(s.heap, s.m);
    }

    /** The matching item is on the chain at position j, linked from prev. */
    method ReplaceChained(nit: Addr, ghost b: int, ghost j: int, it: Addr, prev: Addr)
      requires Valid() && Ready(C(), hash, nit, b)
      requires BUCKET_NITEMS <= j && At(T(), b, j) == Some(it) && Hits(heap, T(), b, j, heap[nit].key)
      requires At(T(), b, j - 1) == Some(prev) && prev in heap
      modifies this`heap, this`segs, this`chains, this`keys
      ensures Valid() && SameItems(old(heap), heap) && nit in old(heap)
      ensures OnlyFreed(old(M()), M())
      ensures keys == old(keys)[old(heap)[nit].key := nit]
    {
      hide CoreOk, AllocOk, At, BucketOf, SameItems, Replaced, Debited, Hits, Tidy;
      ghost var s := C();
      ChainPosition(T(), b, j);
      ReplacedOk(s, hash, b, j, nit, it);
      ReplacedParts(s, hash, b, j, nit, it);
      Splice(nit, b, j, it, prev);
      assert C() == Replaced(s, b, j, nit, it);
      Reframe(s.heap, s.m);
    }

    /** What `hasht_put` writes to replace an item on the chain. */
    method Splice(nit: Addr, ghost b: int, ghost j: int, it: Addr, prev: Addr)
      requires nit in heap && it in heap && prev in heap && nit != it && heap[it].refcount > 0 && it.seg in segs
      requires 0 <= b < |chains| && BUCKET_NITEMS <= j < BUCKET_NITEMS + |chains[b]|
      modifies this`heap, this`segs, this`chains, this`keys
      ensures var h := SetNext(SetNext(Counted(old(heap), nit, old(heap)[nit].refcount + 1), nit, old(heap)[it].next), prev, Some(nit));
              it in h && heap == Counted(h, it, old(heap)[it].refcount - 1) && M() == Debited(old(M()), h, it)
      ensures chains == old(chains)[b := old(chains)[b][j - BUCKET_NITEMS := nit]] && keys == old(keys)[old(heap)[nit].key := nit]
    {
      hide Debited;
      heap := Counted(heap, nit, heap[nit].refcount + 1);
      heap := SetNext(heap, nit, heap[it].next);
      heap := SetNext(heap, prev, Some(nit));
      chains := chains[b := chains[b][j - BUCKET_NITEMS := nit]];
      keys := keys[heap[nit].key := nit];
      Drop(it);
    }

    /** The key is new and slot i is empty. */
    method FillSlot(nit: Addr, b: int, i: nat)
      requires Valid() && Ready(C(), hash, nit, b) && heap[nit].key !in keys && i < BUCKET_NITEMS && At(T(), b, i) == None
      modifies this`heap, this`buckets, this`keys
      ensures Valid() && SameItems(old(heap), heap) && nit in old(heap)
      ensures keys == old(keys)[old(heap)[nit].key := nit]
    {
      hide CoreOk, AllocOk, BucketOf, SameItems, Tidy;
      ghost var s := C();
      FilledOk(s, hash, b, i, nit);
      heap := Counted(heap, nit, heap[nit].refcount + 1);
      heap := SetNext(heap, nit, buckets[b].items[i]);
      buckets := buckets[b := Bucket(buckets[b].items[i := Some(nit)], buckets[b].hashes[i := heap[nit].hv])];
      keys := keys[heap[nit].key := nit];
      assert C() == Filled(s, b, i, nit);
      Reframe(s.heap, s.m);
    }

    /** The key is new and every slot is taken: nit heads the chain of the last slot. */
    method PushSlot(nit: Addr, b: int)
      requires Valid() && Ready(C(), hash, nit, b) && heap[nit].key !in keys && At(T(), b, LAST_SLOT).Some?
      modifies this`heap, this`buckets, this`chains, this`keys
      ensures Valid() && SameItems(old(heap), heap) && nit in old(heap)
      ensures keys == old(keys)[old(heap)[nit].key := nit]
    {
      hide CoreOk, AllocOk, BucketOf, SameItems, Tidy;
      ghost var s := C();
      PushedOk(s, hash, b, nit);
      heap := Counted(heap, nit, heap[nit].refcount + 1);
      heap := SetNext(heap, nit, buckets[b].items[LAST_SLOT]);
      chains := chains[b := [buckets[b].items[LAST_SLOT].value] + chains[b]];
      buckets := buckets[b := Bucket(buckets[b].items[LAST_SLOT := Some(nit)], buckets[b].hashes[LAST_SLOT := heap[nit].hv])];
      keys := keys[heap[nit].key := nit];
      assert C() == Pushed(s, b, nit);
      Reframe(s.heap, s.m);
    }

    // ---- ialloc.c ----

    /** `segment_alloc`: the head of the free list, else a segment never used before. */
    method SegmentAlloc() returns (r: Option<SegId>)
      requires Valid()
      modifies this`segs, this`alloced, this`freeHead, this`logs, this`owner, this`pools
      ensures Valid()
      ensures r == None <==> old(freeHead) == None && old(alloced) >= segmaxnum
      ensures r == None ==> G() == old(G())
      ensures r.Some? ==>
                && r.value in segs && M() == Granted(old(M()), r.value, segsize, segs[r.value].next)
                && (r.value in old(owner) ==> old(owner)[r.value] == Free) && pools.chains == old(pools.chains)
                && r.value == NextId(old(G())) && G() == Obtained(old(G()), segsize)
    {
      hide AllocOk, TableOk, RefsOk, MemoryOk, Tidy;
      ghost var g := G();
      if freeHead.Some? {
        TakeFreeOk(g);
        var h := freeHead.value;
        FreeHeader(h);
        GrantedMemory(heap, g.m, h, segsize, segs[h].next);
        GrantedTidy(heap, g.m, ias, Lim(), h, segs[h].next);
        freeHead := segs[h].next;
        segs := segs[h := segs[h].(offset := 0, inactive := false, cleaned := false, freed := 0, filler := 0)];
        r, logs, owner, pools := Some(h), logs[h := []], owner[h := Loose], pools.(free := pools.free[1..]);
        assert G() == TakeFree(g);
      } else if alloced >= segmaxnum {
        r := None;
      } else {
        CreateOk(g, segsize);
        var h := alloced;
        NewHeader(h);
        GrantedMemory(heap, g.m, h, segsize, None);
        GrantedTidy(heap, g.m, ias, Lim(), h, None);
        segs := segs[h := FreshHeader(segsize, None)];
        alloced := alloced + 1;
        r, logs, owner := Some(h), logs[h := []], owner[h := Loose];
        assert G() == Create(g, segsize);
      }
    }

    lemma FreeHeader(h: SegId)
      requires Valid() && h in segs
      ensures segs[h].size == segsize && h in owner
    {
      assert HeaderOk(segs, Lim(), h) && OwnerOk(M(), ias, pools, h);
    }

    lemma NewHeader(h: SegId)
      requires Valid() && h !in segs
      ensures h !in owner
    {
      assert OwnerOk(M(), ias, pools, h);
    }

    /** `segment_item_alloc` in a core's current segment; the item's contents are those its caller will fill in. */
    method SegmentItemAlloc(c: int, it: Item) returns (r: Option<Addr>)
      requires Valid() && 0 <= c < |ias| && it.refcount == 1 && it.hv == hash(it.key) && TotalSize(it) <= itemmax
      modifies this`heap, this`held, this`segs, this`logs
      ensures Valid() && ias[c].cur in old(segs) && ias[c].cur in segs
      ensures r == None <==> old(segs[ias[c].cur].size - segs[ias[c].cur].offset) < TotalSize(it)
      ensures r == None ==> heap == old(heap) && held == old(held) && segs[ias[c].cur].offset == segs[ias[c].cur].size
      ensures r.Some? ==> Allocated(old(C()), C(), r.value, it)
      ensures r == if TotalSize(it) <= Room(old(G()), c) then Some(EndOf(old(G()), c)) else None
      ensures G() == if r == None then WrittenOff(old(G()), c) else PlacedIn(old(G()), c, TotalSize(it))
    {
      hide CoreOk, AllocOk, Tidy, Linked, ValuesOf;
      ghost var g, s := G(), C();
      CurrentIsOpen(c);
      var h := ias[c].cur;
      var avail := segs[h].size - segs[h].offset;
      if avail == 0 {
        r := None;
      } else if avail < TotalSize(it) {
        ClosedOk(s, g, Lim(), h);
        segs := segs[h := Closed(segs[h])];
        assert M() == s.m.(segs := segs);
        ClosedAlloc(g, G(), h);
        r := None;
      } else {
        PlacedOk(s, g, Lim(), h, it);
        var a := Addr(h, segs[h].offset);
        heap := heap[a := it];
        logs := logs[h := logs[h] + [segs[h].offset]];
        segs := segs[h := segs[h].(offset := segs[h].offset + TotalSize(it))];
        held := held + multiset{a};
        assert M() == Placed(s.m, h, TotalSize(it));
        ClosedAlloc(g, G(), h);
        r := Some(a);
      }
    }

    lemma CurrentIsOpen(c: int)
      requires Valid() && 0 <= c < |ias|
      ensures Open(M(), ias[c].cur) && owner[ias[c].cur] == InChain(c)
    {
      CurrentOpen(heap, G(), c);
    }

    /** A segment in hand becomes the current one of core c, whose old one is full or written off. */
    method Extend(c: int, h: SegId)
      requires Valid() && 0 <= c < |ias| && h in owner && owner[h] == Loose && h in segs
      requires ias[c].cur in segs && segs[ias[c].cur].offset == segs[ias[c].cur].size
      modifies this`segs, this`ias, this`owner, this`pools
      ensures Valid() && ias == old(ias)[c := old(ias)[c].(cur := h)] && pools.free == old(pools.free) && owner == old(owner)[h := InChain(c)]
      ensures h in segs && segs[h].size == segsize && segs[h].offset == 0
      ensures G() == Extended(old(G()), c, h)
    {
      hide CoreOk, AllocOk, Tidy;
      ghost var s, g := C(), G();
      LooseIsEmpty(h);
      AppendAll(s, g, Lim(), c, h);
      var last := ias[c].cur;
      segs := segs[last := segs[last].(next := Some(h))];
      segs := segs[h := segs[h].(next := None)];
      segs := segs[last := segs[last].(inactive := true)];
      ias := ias[c := ias[c].(cur := h)];
      owner := owner[h := InChain(c)];
      pools := pools.(chains := pools.chains[c := pools.chains[c] + [h]]);
      assert M() == Append(g, c, h).m;
      assert G() == Append(g, c, h);
    }

    lemma LooseIsEmpty(h: SegId)
      requires Valid() && h in owner && owner[h] == Loose && h in segs
      ensures segs[h].size == segsize && segs[h].offset == 0 && !segs[h].inactive
    {
      assert SegOk(heap, M(), h) && HeaderOk(segs, Lim(), h);
    }

    /** The reserve of core c is taken, or set to a segment in hand. */
    method SetReserve(c: int, h: Option<SegId>)
      requires Valid() && 0 <= c < |ias|
      requires h.Some? ==> ias[c].reserved == None && h.value in owner && owner[h.value] == Loose
      modifies this`ias, this`owner
      ensures Valid() && ias == old(ias)[c := old(ias)[c].(reserved := h)]
      ensures match (old(ias[c].reserved), h)
              case (Some(r), None) => r in segs && owner == old(owner)[r := Loose]
              case (None, Some(r)) => owner == old(owner)[r := InReserve(c)]
              case _ => owner == old(owner)
      ensures G() == WithReserve(old(G()), c, h)
    {
      hide CoreOk, AllocOk, Tidy;
      ghost var s, g := C(), G();
      ReserveAll(s, g, Lim(), c, h);
      ias := ias[c := ias[c].(reserved := h)];
      owner := Reserve(g, c, h).m.owner;
      assert G() == Reserve(g, c, h);
    }

    /** The middle of `ialloc_alloc`: a new current segment, from `segment_alloc` or, for cleanup, from the reserve. */
    method NextSegment(c: int, cleanup: bool) returns (ok: bool)
      requires Valid() && 0 <= c < |ias| && ias[c].cur in segs && segs[ias[c].cur].offset == segs[ias[c].cur].size
      modifies this`segs, this`alloced, this`freeHead, this`ias, this`logs, this`owner, this`pools
      ensures Valid() && |ias| == |old(ias)| && (AllHome(old(owner)) ==> AllHome(owner))
      ensures var dry := old(freeHead) == None && old(alloced) >= segmaxnum;
              && (ok <==> !dry || (cleanup && old(ias)[c].reserved.Some?))
              && ias == old(ias)[c := old(ias)[c].(cur := ias[c].cur, reserved := if dry && cleanup then None else old(ias)[c].reserved)]
      ensures ok ==> ias[c].cur in segs && segs[ias[c].cur].size == segsize && segs[ias[c].cur].offset == 0
      ensures match NextCur(old(G()), c, cleanup, segmaxnum, segsize) case None => !ok && G() == old(G()) case Some(g) => ok && G() == g
    {
      hide CoreOk, AllocOk, Tidy, Extended, Obtained, WithReserve;
      CurrentIsOpen(c);
      var h := SegmentAlloc();
      if h == None {
        if cleanup && ias[c].reserved.Some? {
          h := ias[c].reserved;
          SetReserve(c, None);
        } else {
          return false;
        }
      }
      Extend(c, h.value);
      ok := true;
    }

    /**
     `ialloc_alloc`. Without cleanup it fails when the reserve is in use, or the current segment has no
     room and no segment can be had; with cleanup it falls back on the reserve.
     */
    method IallocAlloc(c: int, it: Item, cleanup: bool) returns (r: Option<Addr>)
      requires Valid() && 0 <= c < |ias| && it.refcount == 1 && it.hv == hash(it.key) && TotalSize(it) <= itemmax
      modifies this`heap, this`held, this`segs, this`alloced, this`freeHead, this`ias, this`logs, this`owner, this`pools
      ensures Valid() && |ias| == |old(ias)| && (AllHome(old(owner)) ==> AllHome(owner))
      ensures ias == old(ias)[c := old(ias)[c].(cur := ias[c].cur, reserved := ias[c].reserved)]
      ensures r == None <==> AllocFails(old(segs), old(ias)[c], old(freeHead), old(alloced) >= segmaxnum, cleanup, TotalSize(it))
      ensures ias[c].reserved == if UsesReserve(old(segs), old(ias)[c], old(freeHead), old(alloced) >= segmaxnum, cleanup, TotalSize(it))
                                 then None else old(ias)[c].reserved
      ensures r == None ==> heap == old(heap) && held == old(held)
      ensures r.Some? ==> Allocated(old(C()), C(), r.value, it)
      ensures (G(), r) == Ialloc(old(G()), c, TotalSize(it), cleanup, segmaxnum, segsize)
    {
      hide CoreOk, AllocOk, Tidy, Linked, ValuesOf, NextCur, WrittenOff, PlacedIn, EndOf, AllHome;
      if ias[c].reserved == None && !cleanup {
        return None;
      }
      r := SegmentItemAlloc(c, it);
      if r == None {
        r := AllocInNext(c, it, cleanup);
      }
    }

    /** The rest of `ialloc_alloc`, when the current segment has no room. */
    method AllocInNext(c: int, it: Item, cleanup: bool) returns (r: Option<Addr>)
      requires Valid() && 0 <= c < |ias| && it.refcount == 1 && it.hv == hash(it.key) && TotalSize(it) <= itemmax
      requires ias[c].cur in segs && segs[ias[c].cur].offset == segs[ias[c].cur].size
      modifies this`heap, this`held, this`segs, this`alloced, this`freeHead, this`ias, this`logs, this`owner, this`pools
      ensures Valid() && |ias| == |old(ias)| && (AllHome(old(owner)) ==> AllHome(owner))
      ensures var dry := old(freeHead) == None && old(alloced) >= segmaxnum;
              && (r == None <==> dry && !(cleanup && old(ias)[c].reserved.Some?))
              && ias == old(ias)[c := old(ias)[c].(cur := ias[c].cur, reserved := if dry && cleanup then None else old(ias)[c].reserved)]
      ensures r == None ==> heap == old(heap) && held == old(held)
      ensures r.Some? ==> Allocated(old(C()), C(), r.value, it)
      ensures match NextCur(old(G()), c, cleanup, segmaxnum, segsize)
              case None => r == None && G() == old(G())
              case Some(g) => r == Some(EndOf(g, c)) && G() == PlacedIn(g, c, TotalSize(it))
    {
      hide CoreOk, AllocOk, Tidy, Linked, ValuesOf, NextCur, WrittenOff, PlacedIn, EndOf, AllHome;
      var ok := NextSegment(c, cleanup);
      r := None;
      if ok {
        r := SegmentItemAlloc(c, it);
      }
    }

    /** `ialloc_cleanup_item`: the next item to clean, at most 32 per request unless idle; refills an empty reserve. */
    method CleanupItem(c: int, idle: bool) returns (r: Option<Addr>)
      requires Valid() && 0 <= c < |ias|
      modifies this`segs, this`alloced, this`freeHead, this`ias, this`logs, this`owner, this`pools
      ensures Valid() && |ias| == |old(ias)| && (AllHome(old(owner)) ==> AllHome(owner))
      ensures var ia := old(ias)[c];
              var limited := !idle && ia.cleanupCount >= CLEANUP_LIMIT;
              && r == (if limited || ia.queue == [] then None else Some(ia.queue[0]))
              && (limited ==> G() == old(G()))
              && (!limited ==>
                    && ias == old(ias)[c := ia.(queue := if r == None then ia.queue else ia.queue[1..], reserved := ias[c].reserved,
                                                cleanupCount := if idle then ia.cleanupCount else ia.cleanupCount + 1)]
                    && (ia.reserved.Some? ==> ias[c].reserved == ia.reserved)
                    && (ia.reserved == None ==> (ias[c].reserved == None <==> old(freeHead) == None && old(alloced) >= segmaxnum))
                    && G() == Taken(old(G()), c, idle, segmaxnum, segsize))
    {
      hide CoreOk, AllocOk, Tidy, Refilled;
      ghost var g := G();
      if !idle {
        if ias[c].cleanupCount >= CLEANUP_LIMIT {
          return None;
        }
        SetWork(c, ias[c].queue, ias[c].cleanupCount + 1);
      }
      r := None;
      if ias[c].queue != [] {
        r := Some(ias[c].queue[0]);
        SetWork(c, ias[c].queue[1..], ias[c].cleanupCount);
      }
      assert G() == Worked(g, c, if Queue(g, c) == [] then [] else Queue(g, c)[1..], if idle then CleanupCount(g, c) else CleanupCount(g, c) + 1);
      Refill(c);
    }

    /** An empty reserve is refilled, if a segment can be had. */
    method Refill(c: int)
      requires Valid() && 0 <= c < |ias|
      modifies this`segs, this`alloced, this`freeHead, this`ias, this`logs, this`owner, this`pools
      ensures Valid() && |ias| == |old(ias)| && (AllHome(old(owner)) ==> AllHome(owner))
      ensures G() == Refilled(old(G()), c, segmaxnum, segsize)
      ensures ias == old(ias)[c := old(ias)[c].(reserved := ias[c].reserved)]
      ensures old(ias)[c].reserved.Some? ==> ias[c].reserved == old(ias)[c].reserved
      ensures old(ias)[c].reserved == None ==> (ias[c].reserved == None <==> old(freeHead) == None && old(alloced) >= segmaxnum)
    {
      hide CoreOk, AllocOk, Tidy, Obtained, WithReserve;
      ghost var g := G();
      if ias[c].reserved == None {
        var h := SegmentAlloc();
        ghost var g1 := G();
        SetReserve(c, h);
        if h == None { NoReserve(g1, c); }
      }
    }

    /** Queue and counter of core c, which concern no invariant of the store. */
    method SetWork(c: int, queue: seq<Addr>, count: nat)
      requires Valid() && 0 <= c < |ias|
      modifies this`ias
      ensures Valid() && ias == old(ias)[c := old(ias)[c].(queue := queue, cleanupCount := count)]
    {
      hide CoreOk, AllocOk, Tidy;
      ghost var was := ias;
      ias := ias[c := ias[c].(queue := queue, cleanupCount := count)];
      AllocFrame(M(), M(), was, ias, pools, freeHead, alloced);
      WorkTidy(heap, M(), was, ias, Lim());
    }
  }

  /** Item it is new at address a, held by the thread that allocated it, and nothing else in the store has changed. */
  ghost predicate Allocated(s: Core, s': Core, a: Addr, it: Item) {
    && a !in s.heap && s'.heap == s.heap[a := it] && s'.held == s.held + multiset{a} && s'.keys == s.keys && s'.t == s.t
    && !Linked(s'.heap, s'.keys, a) && ValuesOf(s'.heap, s'.keys) == ValuesOf(s.heap, s.keys)
  }

  /** The current segment has no room, and no segment is free or left to create. */
  predicate OutOfSegments(segs: map<SegId, Segment>, ia: Allocator, freeHead: Option<SegId>, exhausted: bool, total: nat) {
    && ia.cur in segs && segs[ia.cur].size - segs[ia.cur].offset < total && freeHead == None && exhausted
  }

  predicate AllocFails(segs: map<SegId, Segment>, ia: Allocator, freeHead: Option<SegId>, exhausted: bool, cleanup: bool, total: nat) {
    if cleanup then OutOfSegments(segs, ia, freeHead, exhausted, total) && ia.reserved == None
    else ia.reserved == None || OutOfSegments(segs, ia, freeHead, exhausted, total)
  }

  predicate UsesReserve(segs: map<SegId, Segment>, ia: Allocator, freeHead: Option<SegId>, exhausted: bool, cleanup: bool, total: nat) {
    cleanup && OutOfSegments(segs, ia, freeHead, exhausted, total)
  }

  lemma NoReserve(g: Alloc, c: int)
    requires 0 <= c < |g.ias| && g.ias[c].reserved == None
    ensures WithReserve(g, c, None) == g
  {
    assert g.ias[c := g.ias[c].(reserved := None)] == g.ias;
  }

  /** Offsets and byte counts are no concern of the lists. */
  lemma ClosedAlloc(g: Alloc, g': Alloc, h: SegId)
    requires Ok(g) && h in g.m.segs && h in g'.m.segs
    requires g'.m.segs == g.m.segs[h := g'.m.segs[h]] && g'.m.owner == g.m.owner
    requires g'.m.segs[h].next == g.m.segs[h].next && g'.m.segs[h].inactive == g.m.segs[h].inactive
    requires g' == g.(m := g'.m)
    ensures Ok(g')
  {
    OffList(g.m.segs, g'.m.segs, g.pools.free);
    forall c: int ensures ChainOk(g'.m, g.ias, g.pools, c) {
      assert ChainOk(g.m, g.ias, g.pools, c);
      if 0 <= c < |g.ias| { OffList(g.m.segs, g'.m.segs, g.pools.chains[c]); }
    }
    forall s: SegId ensures OwnerOk(g'.m, g.ias, g.pools, s) { assert OwnerOk(g.m, g.ias, g.pools, s); }
    forall s: SegId ensures ListedOk(g'.m, g.ias, g.pools, s) { assert ListedOk(g.m, g.ias, g.pools, s); }
  }

  lemma ChainPosition(t: Table, b: int, j: int)
    requires 0 <= b < |t.buckets| == |t.chains| && BUCKET_NITEMS <= j && At(t, b, j).Some?
    ensures j - BUCKET_NITEMS < |t.chains[b]|
  {
  }

  /** Between requests the references outside the table are those of the cleanup queues, and of other threads. */
  ghost predicate Settled(st: KvStore, others: multiset<Addr>)
    reads st
  {
    st.Valid() && AllHome(st.owner) && st.held == Queued(st.ias) + others
  }

  function EmptyBucket(): Bucket {
    Bucket([None, None, None, None, None], [0, 0, 0, 0, 0])
  }
}
