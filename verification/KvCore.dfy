/**
 Items, table, references and segment accounts together, and what taking a reference, dropping one
 and putting an item do to them, on values.
 */
module KvCore {
  import opened Basics
  import opened KvTable
  import opened KvInvariant

  /** Items, table, abstract map, references held outside the table, and segments. */
  datatype Core = Core(heap: Heap, t: Table, keys: map<Bytes, Addr>, held: multiset<Addr>, m: Memory)

  ghost predicate CoreOk(s: Core, hash: Hash) {
    TableOk(s.heap, s.t, s.keys, hash) && RefsOk(s.heap, s.keys, s.held) && MemoryOk(s.heap, s.m)
  }

  /** The key-to-value map the store stands for. */
  function ValuesOf(heap: Heap, keys: map<Bytes, Addr>): map<Bytes, Bytes> {
    map k | k in keys :: if keys[k] in heap then heap[keys[k]].value else []
  }

  // ---- items up to links and counts ----

  ghost predicate SameContent(heap: Heap, heap': Heap, a: Addr) {
    a in heap ==> a in heap' && heap'[a].key == heap[a].key && heap'[a].value == heap[a].value && heap'[a].hv == heap[a].hv
  }

  /** The two heaps hold the same items, up to links and counts. */
  ghost predicate SameItems(heap: Heap, heap': Heap) {
    heap'.Keys == heap.Keys && forall a: Addr :: SameContent(heap, heap', a)
  }

  lemma SameItemsTransitive(h1: Heap, h2: Heap, h3: Heap)
    requires SameItems(h1, h2) && SameItems(h2, h3)
    ensures SameItems(h1, h3)
  {
    forall a: Addr ensures SameContent(h1, h3, a) { assert SameContent(h1, h2, a) && SameContent(h2, h3, a); }
  }

  lemma SameItemsValues(heap: Heap, heap': Heap, keys: map<Bytes, Addr>)
    requires SameItems(heap, heap')
    ensures ValuesOf(heap', keys) == ValuesOf(heap, keys)
  {
    forall k | k in keys ensures ValuesOf(heap', keys)[k] == ValuesOf(heap, keys)[k] {
      assert SameContent(heap, heap', keys[k]);
    }
  }

  // ---- item_ref and item_unref ----

  function Counted(heap: Heap, a: Addr, n: nat): Heap
    requires a in heap
  {
    heap[a := heap[a].(refcount := n)]
  }

  function SetNext(heap: Heap, a: Addr, next: Option<Addr>): Heap
    requires a in heap
  {
    heap[a := heap[a].(next := next)]
  }

  lemma CountedSame(heap: Heap, a: Addr, n: nat)
    requires a in heap
    ensures SameItems(heap, Counted(heap, a, n))
  {
  }

  /** The segments' account after a reference to a is dropped. */
  function Debited(m: Memory, heap: Heap, a: Addr): (m': Memory)
    ensures m'.owner == m.owner && m'.logs == m.logs && m'.segs.Keys == m.segs.Keys
  {
    if a in heap && heap[a].refcount == 1 && a.seg in m.segs then Credit(m, a.seg, TotalSize(heap[a])) else m
  }

  function RefCore(s: Core, a: Addr): Core
    requires a in s.heap
  {
    s.(heap := Counted(s.heap, a, s.heap[a].refcount + 1), held := s.held + multiset{a})
  }

  function UnrefCore(s: Core, a: Addr): Core
    requires a in s.heap && s.heap[a].refcount > 0
  {
    s.(heap := Counted(s.heap, a, s.heap[a].refcount - 1), held := s.held - multiset{a}, m := Debited(s.m, s.heap, a))
  }

  /** A count that moves with the references held keeps the table and the counts. */
  lemma RecountOk(heap: Heap, t: Table, keys: map<Bytes, Addr>, hash: Hash, held: multiset<Addr>, held': multiset<Addr>, a: Addr, n: nat)
    requires TableOk(heap, t, keys, hash) && RefsOk(heap, keys, held) && a in heap
    requires n + held[a] == heap[a].refcount + held'[a] && forall x :: x != a ==> held'[x] == held[x]
    ensures TableOk(Counted(heap, a, n), t, keys, hash) && RefsOk(Counted(heap, a, n), keys, held')
  {
    var heap' := Counted(heap, a, n);
    forall x: Addr ensures SameLinks(heap, heap', keys, x) { }
    forall x: Addr ensures RefOk(heap', keys, held', x) { assert RefOk(heap, keys, held, x); }
    hide TableOk;
    TableFrame(heap, heap', t, keys, hash);
  }

  lemma RefCoreOk(s: Core, hash: Hash, a: Addr)
    requires CoreOk(s, hash) && a in s.heap && s.heap[a].refcount > 0
    ensures CoreOk(RefCore(s, a), hash)
  {
    hide TableOk, RefsOk, MemoryOk;
    RecountOk(s.heap, s.t, s.keys, hash, s.held, s.held + multiset{a}, a, s.heap[a].refcount + 1);
    RefMemory(s.heap, s.m, a, s.heap[a].refcount + 1);
  }

  /** A held item is in the heap with a positive count: item_unref's assertion. */
  lemma HeldInHeap(s: Core, hash: Hash, a: Addr)
    requires CoreOk(s, hash) && s.held[a] > 0
    ensures a in s.heap && s.heap[a].refcount > 0 && a.seg in s.m.segs
  {
    hide TableOk;
    assert RefOk(s.heap, s.keys, s.held, a) && AddrOk(s.heap, s.m, a);
  }

  lemma UnrefCoreOk(s: Core, hash: Hash, a: Addr)
    requires CoreOk(s, hash) && s.held[a] > 0
    ensures a in s.heap && s.heap[a].refcount > 0 && a.seg in s.m.segs
    ensures CoreOk(UnrefCore(s, a), hash) && forall x: SegId :: SameHeader(s.m, UnrefCore(s, a).m, x)
  {
    HeldInHeap(s, hash, a);
    hide TableOk, RefsOk, MemoryOk;
    RecountOk(s.heap, s.t, s.keys, hash, s.held, s.held - multiset{a}, a, s.heap[a].refcount - 1);
    if s.heap[a].refcount == 1 {
      DeathMemory(s.heap, s.m, a);
    } else {
      RefMemory(s.heap, s.m, a, s.heap[a].refcount - 1);
    }
  }

  // ---- searching ----

  ghost predicate Hits(heap: Heap, t: Table, b: int, j: int, key: Bytes) {
    At(t, b, j).Some? && At(t, b, j).value in heap && heap[At(t, b, j).value].key == key
  }

  /** An item found under its key is the one the map gives. */
  lemma HitIsMapped(heap: Heap, t: Table, keys: map<Bytes, Addr>, hash: Hash, b: int, j: int, key: Bytes)
    requires TableOk(heap, t, keys, hash) && Hits(heap, t, b, j, key)
    ensures key in keys && At(t, b, j) == Some(keys[key])
  {
    assert PositionOk(heap, t, keys, hash, b, j);
  }

  /** Once all positions before an empty position past the slots miss, the key is not in the map. */
  lemma NothingAt(heap: Heap, t: Table, keys: map<Bytes, Addr>, hash: Hash, key: Bytes, end: int)
    requires TableOk(heap, t, keys, hash)
    requires var b := BucketOf(hash(key), |t.buckets|);
             && BUCKET_NITEMS <= end && (At(t, b, end) == None || At(t, b, LAST_SLOT) == None)
             && forall j :: 0 <= j < end ==> Misses(heap, t, b, j, key)
    ensures key !in keys
  {
    var b := BucketOf(hash(key), |t.buckets|);
    assert ShapeOk(t, b);
    forall j: int ensures Misses(heap, t, b, j, key) { }
    NotInMap(heap, t, keys, hash, key);
  }

  /** Item a holds the key and is in one of the five slots of its bucket. */
  ghost predicate InSlot(t: Table, heap: Heap, key: Bytes, hash: Hash, a: Addr) {
    && |t.buckets| > 0 && a in heap && heap[a].key == key
    && exists i :: 0 <= i < BUCKET_NITEMS && At(t, BucketOf(hash(key), |t.buckets|), i) == Some(a)
  }

  /** The key's item is in slot i, so another item is not its item. */
  lemma OnlyInSlot(heap: Heap, t: Table, keys: map<Bytes, Addr>, hash: Hash, key: Bytes, i: int, a: Addr)
    requires TableOk(heap, t, keys, hash) && Hits(heap, t, BucketOf(hash(key), |t.buckets|), i, key)
    requires At(t, BucketOf(hash(key), |t.buckets|), i) != Some(a)
    ensures !InSlot(t, heap, key, hash, a)
  {
    var b := BucketOf(hash(key), |t.buckets|);
    assert PositionOk(heap, t, keys, hash, b, i);
    forall k | At(t, b, k) == Some(a) ensures a !in heap || heap[a].key != key { assert PositionOk(heap, t, keys, hash, b, k); }
  }

  lemma NotInSlot(heap: Heap, t: Table, key: Bytes, hash: Hash, a: Addr)
    requires |t.buckets| > 0 && forall j :: 0 <= j < BUCKET_NITEMS ==> Misses(heap, t, BucketOf(hash(key), |t.buckets|), j, key)
    ensures !InSlot(t, heap, key, hash, a)
  {
    var b := BucketOf(hash(key), |t.buckets|);
    forall k | 0 <= k < BUCKET_NITEMS && At(t, b, k) == Some(a) ensures a !in heap || heap[a].key != key {
      assert Misses(heap, t, b, k, key);
    }
  }

  /** An item on the overflow chain is in no slot: a compare-and-set against it never goes through. */
  lemma ChainedNotInSlot(heap: Heap, t: Table, keys: map<Bytes, Addr>, hash: Hash, b: int, j: int)
    requires TableOk(heap, t, keys, hash) && BUCKET_NITEMS <= j && At(t, b, j).Some?
    ensures At(t, b, j).value in heap && !InSlot(t, heap, heap[At(t, b, j).value].key, hash, At(t, b, j).value)
  {
    var a := At(t, b, j).value;
    assert PositionOk(heap, t, keys, hash, b, j);
    forall i | At(t, b, i) == Some(a) ensures i == j { OnePlace(heap, t, keys, hash, b, j, b, i); }
  }

  // ---- the four ways of putting an item ----

  ghost predicate Ready(s: Core, hash: Hash, nit: Addr, b: int) {
    && CoreOk(s, hash) && s.held[nit] > 0 && Insertable(s.heap, s.keys, hash, nit)
    && |s.t.buckets| == |s.t.chains| && |s.t.buckets| > 0
    && b == BucketOf(s.heap[nit].hv, |s.t.buckets|) && ShapeOk(s.t, b)
  }

  ghost predicate OnlyNext(heap: Heap, heap': Heap, a: Addr) {
    (a in heap <==> a in heap') && (a in heap ==> heap'[a] == heap[a].(next := heap'[a].next))
  }

  /** Links do not matter to counts and accounts. */
  lemma RelinkOk(s: Core, heap': Heap)
    requires RefsOk(s.heap, s.keys, s.held) && MemoryOk(s.heap, s.m) && forall a: Addr :: OnlyNext(s.heap, heap', a)
    ensures RefsOk(heap', s.keys, s.held) && MemoryOk(heap', s.m) && SameItems(s.heap, heap')
  {
    forall a: Addr
      ensures RefOk(heap', s.keys, s.held, a) && SameShape(s.heap, heap', a) && SameContent(s.heap, heap', a)
      ensures a in s.heap <==> a in heap'
    {
      assert OnlyNext(s.heap, heap', a) && RefOk(s.heap, s.keys, s.held, a);
    }
    MemoryFrame(s.heap, heap', s.m);
  }

  /** The table takes over a reference held on nit, and leaves the one it had on the old item of that key in the open. */
  lemma HandOver(heap: Heap, keys: map<Bytes, Addr>, held: multiset<Addr>, hash: Hash, nit: Addr, left: multiset<Addr>)
    requires RefsOk(heap, keys, held) && held[nit] > 0 && Insertable(heap, keys, hash, nit)
    requires left == if heap[nit].key in keys then multiset{keys[heap[nit].key]} else multiset{}
    requires heap[nit].key in keys ==> keys[heap[nit].key] in heap && heap[keys[heap[nit].key]].key == heap[nit].key
    ensures RefsOk(heap, keys[heap[nit].key := nit], held - multiset{nit} + left)
  {
    var keys', held' := keys[heap[nit].key := nit], held - multiset{nit} + left;
    forall a: Addr ensures RefOk(heap, keys', held', a) {
      assert RefOk(heap, keys, held, a);
    }
  }

  /** Where hasht_put rewrites links: in nit, and for a chained item in its predecessor. */
  function Relink(heap: Heap, t: Table, b: int, j: int, nit: Addr, it: Addr): Heap
    requires nit in heap && it in heap
  {
    var h1 := SetNext(heap, nit, heap[it].next);
    if j < BUCKET_NITEMS then h1
    else match At(t, b, j - 1) {
      case Some(prev) => if prev in h1 then SetNext(h1, prev, Some(nit)) else h1
      case None => h1
    }
  }

  ghost predicate Fits(t: Table, b: int, j: int) {
    && 0 <= b < |t.buckets| == |t.chains| && 0 <= j < BUCKET_NITEMS + |t.chains[b]|
    && |t.buckets[b].items| == |t.buckets[b].hashes| == BUCKET_NITEMS
  }

  /** The state between linking nit at position j and dropping the reference to the item it replaced. */
  ghost function Swapped(s: Core, b: int, j: int, nit: Addr, it: Addr): Core
    requires nit in s.heap && it in s.heap && Fits(s.t, b, j)
  {
    Core(Relink(s.heap, s.t, b, j, nit, it), ReplaceAt(s.t, b, j, nit, s.heap[nit].hv),
         s.keys[s.heap[nit].key := nit], s.held - multiset{nit} + multiset{it}, s.m)
  }

  lemma SwappedOk(s: Core, hash: Hash, b: int, j: int, nit: Addr, it: Addr)
    requires Ready(s, hash, nit, b) && Fits(s.t, b, j) && At(s.t, b, j) == Some(it) && Hits(s.heap, s.t, b, j, s.heap[nit].key)
    ensures it in s.heap && nit != it
    ensures CoreOk(Swapped(s, b, j, nit, it), hash) && SameItems(s.heap, Swapped(s, b, j, nit, it).heap)
  {
    HitIsMapped(s.heap, s.t, s.keys, hash, b, j, s.heap[nit].key);
    MemberKept(s.heap, s.t, s.keys, hash, b, j, nit);
    if j >= BUCKET_NITEMS && At(s.t, b, j - 1).Some? { MemberKept(s.heap, s.t, s.keys, hash, b, j - 1, nit); }
    var heap' := Relink(s.heap, s.t, b, j, nit, it);
    forall a: Addr ensures Relinked(s.heap, heap', LinksFor(s.heap, s.t, b, j, nit), a) && OnlyNext(s.heap, heap', a) { }
    hide TableOk, MemoryOk, RefsOk, Relink;
    ReplaceOk(s.heap, heap', s.t, s.keys, hash, b, j, nit);
    RelinkOk(s, heap');
    assert SameContent(s.heap, heap', nit) && SameContent(s.heap, heap', it);
    HandOver(heap', s.keys, s.held, hash, nit, multiset{it});
  }

  /** item_ref(nit), relink, item_unref(it). */
  ghost function Replaced(s: Core, b: int, j: int, nit: Addr, it: Addr): Core
    requires nit in s.heap && it in s.heap && s.heap[it].refcount > 0 && Fits(s.t, b, j)
  {
    var s1 := RefCore(s, nit);
    var s2 := Swapped(s1, b, j, nit, it);
    if it in s2.heap && s2.heap[it].refcount > 0 then UnrefCore(s2, it) else s2
  }

  lemma ReplacedOk(s: Core, hash: Hash, b: int, j: int, nit: Addr, it: Addr)
    requires Ready(s, hash, nit, b) && Fits(s.t, b, j) && At(s.t, b, j) == Some(it) && Hits(s.heap, s.t, b, j, s.heap[nit].key)
    ensures it in s.heap && nit != it && s.heap[it].refcount > 0 && it.seg in s.m.segs
    ensures CoreOk(Replaced(s, b, j, nit, it), hash) && SameItems(s.heap, Replaced(s, b, j, nit, it).heap)
    ensures Replaced(s, b, j, nit, it).held == s.held
    ensures forall x: SegId :: SameHeader(s.m, Replaced(s, b, j, nit, it).m, x)
  {
    hide TableOk, MemoryOk, RefsOk, SameItems, At, BucketOf;
    HeldInHeap(s, hash, nit);
    var s1 := RefCore(s, nit);
    RefCoreOk(s, hash, nit);
    CountedSame(s.heap, nit, s.heap[nit].refcount + 1);
    SwappedOk(s1, hash, b, j, nit, it);
    var s2 := Swapped(s1, b, j, nit, it);
    UnrefCoreOk(s2, hash, it);
    CountedSame(s2.heap, it, s2.heap[it].refcount - 1);
    SameItemsTransitive(s.heap, s1.heap, s2.heap);
    SameItemsTransitive(s.heap, s2.heap, UnrefCore(s2, it).heap);
    RelinkCounts(s1.heap, s.t, b, j, nit, it);
  }

  /** The heap and the table after the links are rewritten. */
  ghost function LinkedHeap(s: Core, b: int, j: int, nit: Addr, it: Addr): Heap
    requires nit in s.heap && it in s.heap
  {
    var h1 := SetNext(Counted(s.heap, nit, s.heap[nit].refcount + 1), nit, s.heap[it].next);
    if j >= BUCKET_NITEMS && At(s.t, b, j - 1).Some? && At(s.t, b, j - 1).value in s.heap
    then SetNext(h1, At(s.t, b, j - 1).value, Some(nit)) else h1
  }

  ghost function LinkedTable(s: Core, b: int, j: int, nit: Addr): Table
    requires Fits(s.t, b, j)
  {
    if j < BUCKET_NITEMS
    then s.t.(buckets := s.t.buckets[b := s.t.buckets[b].(items := s.t.buckets[b].items[j := Some(nit)])])
    else s.t.(chains := s.t.chains[b := s.t.chains[b][j - BUCKET_NITEMS := nit]])
  }

  lemma LinkedTableIs(s: Core, hash: Hash, b: int, j: int, nit: Addr)
    requires Ready(s, hash, nit, b) && Fits(s.t, b, j) && Hits(s.heap, s.t, b, j, s.heap[nit].key)
    ensures ReplaceAt(s.t, b, j, nit, s.heap[nit].hv) == LinkedTable(s, b, j, nit)
  {
    assert PositionOk(s.heap, s.t, s.keys, hash, b, j);
    hide TableOk, MemoryOk, RefsOk, BucketOf;
    if j < BUCKET_NITEMS {
      assert s.t.buckets[b].hashes[j := s.heap[nit].hv] == s.t.buckets[b].hashes;
    }
  }

  lemma LinkedHeapIs(s: Core, b: int, j: int, nit: Addr, it: Addr)
    requires nit in s.heap && it in s.heap && nit != it
    ensures Relink(RefCore(s, nit).heap, s.t, b, j, nit, it) == LinkedHeap(s, b, j, nit, it)
    ensures it in LinkedHeap(s, b, j, nit, it) && LinkedHeap(s, b, j, nit, it)[it].refcount == s.heap[it].refcount
  {
  }

  /** What the replacement leaves in each part of the store. */
  lemma ReplacedParts(s: Core, hash: Hash, b: int, j: int, nit: Addr, it: Addr)
    requires Ready(s, hash, nit, b) && Fits(s.t, b, j) && At(s.t, b, j) == Some(it) && it in s.heap && nit != it
    requires Hits(s.heap, s.t, b, j, s.heap[nit].key) && s.heap[it].refcount > 0
    ensures var h := LinkedHeap(s, b, j, nit, it);
            && it in h && h[it].refcount == s.heap[it].refcount
            && Replaced(s, b, j, nit, it) ==
                 Core(Counted(h, it, h[it].refcount - 1), LinkedTable(s, b, j, nit), s.keys[s.heap[nit].key := nit], s.held, Debited(s.m, h, it))
  {
    LinkedTableIs(s, hash, b, j, nit);
    LinkedHeapIs(s, b, j, nit, it);
    hide CoreOk, Relink, LinkedHeap, LinkedTable, ReplaceAt, At, BucketOf, Debited;
    assert s.held + multiset{nit} - multiset{nit} + multiset{it} - multiset{it} == s.held;
  }

  lemma RelinkCounts(heap: Heap, t: Table, b: int, j: int, nit: Addr, it: Addr)
    requires nit in heap && it in heap
    ensures forall a :: a in heap ==> a in Relink(heap, t, b, j, nit, it) && Relink(heap, t, b, j, nit, it)[a].refcount == heap[a].refcount
  {
  }

  /** A new key in the empty slot j. */
  ghost function Filled(s: Core, b: int, j: int, nit: Addr): Core
    requires nit in s.heap && Fits(s.t, b, j)
  {
    var h1 := Counted(s.heap, nit, s.heap[nit].refcount + 1);
    s.(heap := SetNext(h1, nit, None), t := ReplaceAt(s.t, b, j, nit, s.heap[nit].hv), keys := s.keys[s.heap[nit].key := nit])
  }

  /** A new key at the head of the chain. */
  ghost function Pushed(s: Core, b: int, nit: Addr): Core
    requires nit in s.heap && Fits(s.t, b, LAST_SLOT) && s.t.buckets[b].items[LAST_SLOT].Some?
  {
    var h1 := Counted(s.heap, nit, s.heap[nit].refcount + 1);
    s.(heap := SetNext(h1, nit, s.t.buckets[b].items[LAST_SLOT]), t := PushFront(s.t, b, nit, s.heap[nit].hv),
       keys := s.keys[s.heap[nit].key := nit])
  }

  /** A new key: counts and accounts, once nit has its count and its link. */
  lemma InsertedRefs(s: Core, hash: Hash, nit: Addr, next: Option<Addr>)
    requires CoreOk(s, hash) && s.held[nit] > 0 && Insertable(s.heap, s.keys, hash, nit) && s.heap[nit].key !in s.keys
    ensures var h := SetNext(RefCore(s, nit).heap, nit, next);
            && RefsOk(h, s.keys[s.heap[nit].key := nit], s.held) && MemoryOk(h, s.m) && SameItems(s.heap, h)
            && CoreOk(RefCore(s, nit), hash)
            && forall a: Addr :: Relinked(RefCore(s, nit).heap, h, map[nit := next], a)
  {
    hide TableOk, MemoryOk, RefsOk, SameItems;
    HeldInHeap(s, hash, nit);
    RefCoreOk(s, hash, nit);
    var s1 := RefCore(s, nit);
    CountedSame(s.heap, nit, s.heap[nit].refcount + 1);
    var h := SetNext(s1.heap, nit, next);
    forall a: Addr ensures OnlyNext(s1.heap, h, a) && Relinked(s1.heap, h, map[nit := next], a) { }
    RelinkOk(s1, h);
    SameItemsTransitive(s.heap, s1.heap, h);
    HandOver(h, s.keys, s1.held, hash, nit, multiset{});
    assert s1.held - multiset{nit} + multiset{} == s.held;
  }

  lemma FilledOk(s: Core, hash: Hash, b: int, j: int, nit: Addr)
    requires Ready(s, hash, nit, b) && Fits(s.t, b, j) && j < BUCKET_NITEMS && At(s.t, b, j) == None && s.heap[nit].key !in s.keys
    ensures CoreOk(Filled(s, b, j, nit), hash) && SameItems(s.heap, Filled(s, b, j, nit).heap)
  {
    hide TableOk, MemoryOk, RefsOk, SameItems;
    InsertedRefs(s, hash, nit, None);
    FillSlotOk(RefCore(s, nit).heap, Filled(s, b, j, nit).heap, s.t, s.keys, hash, b, j, nit);
  }

  lemma PushedOk(s: Core, hash: Hash, b: int, nit: Addr)
    requires Ready(s, hash, nit, b) && Fits(s.t, b, LAST_SLOT) && At(s.t, b, LAST_SLOT).Some? && s.heap[nit].key !in s.keys
    ensures CoreOk(Pushed(s, b, nit), hash) && SameItems(s.heap, Pushed(s, b, nit).heap)
  {
    hide TableOk, MemoryOk, RefsOk, SameItems;
    InsertedRefs(s, hash, nit, At(s.t, b, LAST_SLOT));
    PushFrontOk(RefCore(s, nit).heap, Pushed(s, b, nit).heap, s.t, s.keys, hash, b, nit);
  }
}
