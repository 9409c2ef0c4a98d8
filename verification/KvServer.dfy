/**
 The FlexKVS worker: what it does with items for a GET, for a SET, and while cleaning the log.
 */
module KvServer {
  import opened Basics
  import opened KvTable
  import opened KvInvariant
  import opened KvCore
  import opened KvAlloc
  import opened KvWalk
  import opened KvIalloc
  import opened KvStore

  // ---- values ----

  lemma ValuesPut(heap: Heap, heap': Heap, keys: map<Bytes, Addr>, nit: Addr)
    requires SameItems(heap, heap') && nit in heap
    ensures ValuesOf(heap', keys[heap[nit].key := nit]) == ValuesOf(heap, keys)[heap[nit].key := heap[nit].value]
  {
    SameItemsValues(heap, heap', keys[heap[nit].key := nit]);
  }

  /** A relocation that goes through puts a copy in place of the item that was copied. */
  lemma ValuesMoved(s: Core, hash: Hash, heap': Heap, nit: Addr, it: Addr)
    requires CoreOk(s, hash) && SameItems(s.heap, heap') && nit in s.heap && it in s.heap
    requires s.heap[nit].key == s.heap[it].key && s.heap[nit].value == s.heap[it].value
    requires InSlot(s.t, s.heap, s.heap[nit].key, hash, it)
    ensures ValuesOf(heap', s.keys[s.heap[nit].key := nit]) == ValuesOf(s.heap, s.keys)
  {
    var key := s.heap[nit].key;
    var b := BucketOf(hash(key), |s.t.buckets|);
    var i :| 0 <= i < BUCKET_NITEMS && At(s.t, b, i) == Some(it);
    HitIsMapped(s.heap, s.t, s.keys, hash, b, i, key);
    hide CoreOk, InSlot;
    ValuesPut(s.heap, heap', s.keys, nit);
  }

  // ---- requests ----

  method Get(st: KvStore, key: Bytes) returns (r: Option<Bytes>)
    requires st.Valid()
    modifies st`heap, st`held, st`segs
    ensures st.Valid() && st.C() == old(st.C())
    ensures r == if key in st.View() then Some(st.View()[key]) else None
  {
    ghost var s := st.C();
    var hv := st.hash(key);
    var it := st.HashtGet(key, hv);
    if it == None {
      r := None;
    } else {
      hide CoreOk, AllocOk, Tidy, SameItems;
      r := Some(st.heap[it.value].value);
      st.ItemUnref(it.value);
      RefUnref(s, it.value);
    }
  }

  lemma RefUnref(s: Core, a: Addr)
    requires a in s.heap && s.heap[a].refcount > 0
    ensures a in RefCore(s, a).heap && UnrefCore(RefCore(s, a), a) == s
  {
    assert s.held + multiset{a} - multiset{a} == s.held;
  }

  /** What a SET does: the item goes where `ialloc_alloc` puts it, and its key maps there; or there is no memory. */
  ghost predicate SetSpec(cfg: Settings, pre: Snapshot, post: Snapshot, c: int, key: Bytes, value: Bytes, ok: bool) {
    var (g, a) := Ialloc(pre.alloc, c, ITEM_HEADER + |key| + |value|, false, cfg.maxnum, cfg.segsize);
    && ok == a.Some? && OnlyFreed(g.m, post.alloc.m) && post.alloc == g.(m := post.alloc.m) && post.core.m == post.alloc.m
    && post.core.held == pre.core.held
    && post.core.keys == (if a.Some? then pre.core.keys[key := a.value] else pre.core.keys)
    && (a == None ==> post.core.heap == pre.core.heap && post.core.t == pre.core.t)
    && (a.Some? ==> a.value !in pre.core.heap && SameItems(pre.core.heap[a.value := Item(None, cfg.hash(key), key, value, 1)], post.core.heap))
  }

  method Set(st: KvStore, c: int, key: Bytes, value: Bytes) returns (ok: bool)
    requires st.Valid() && 0 <= c < |st.ias| && ITEM_HEADER + |key| + |value| <= st.itemmax
    modifies st
    ensures st.Valid() && st.held == old(st.held) && (AllHome(old(st.owner)) ==> AllHome(st.owner))
    ensures |st.ias| == |old(st.ias)| && st.ias == old(st.ias)[c := old(st.ias)[c].(cur := st.ias[c].cur)]
    ensures st.View() == if ok then old(st.View())[key := value] else old(st.View())
    ensures ok <==> !AllocFails(old(st.segs), old(st.ias)[c], old(st.freeHead), old(st.alloced) >= st.segmaxnum, false,
                                ITEM_HEADER + |key| + |value|)
    ensures SetSpec(st.Cfg(), old(st.Now()), st.Now(), c, key, value, ok)
  {
    hide CoreOk, AllocOk, Tidy, SameItems, Linked, ValuesOf, OnlyFreed, Ialloc, KvStore.Valid, AllHome, AllocFails, SetSpec;
    ghost var pre := st.Now();
    var it := Item(None, st.hash(key), key, value, 1);
    var r := st.IallocAlloc(c, it, false);
    ok := r.Some?;
    ghost var m1, h1, g1 := st.M(), st.heap, st.G();
    OnlyFreedSame(m1);
    if ok {
      ghost var s := st.C();
      st.HashtPut(r.value, None);
      ValuesPut(s.heap, st.heap, s.keys, r.value);
      ghost var s1 := st.C();
      st.ItemUnref(r.value);
      SameItemsValues(s1.heap, st.heap, s1.keys);
      SameItemsTransitive(h1, s1.heap, st.heap);
      OnlyFreedTransitive(m1, s1.m, st.M());
    }
    SetIs(st.Cfg(), pre, g1, r, st.Now(), c, key, value);
  }

  lemma SetIs(cfg: Settings, pre: Snapshot, g: Alloc, r: Option<Addr>, post: Snapshot, c: int, key: Bytes, value: Bytes)
    requires (g, r) == Ialloc(pre.alloc, c, ITEM_HEADER + |key| + |value|, false, cfg.maxnum, cfg.segsize)
    requires OnlyFreed(g.m, post.alloc.m) && post.alloc == g.(m := post.alloc.m) && post.core.m == post.alloc.m && post.core.held == pre.core.held
    requires r == None ==> post.core.heap == pre.core.heap && post.core.t == pre.core.t && post.core.keys == pre.core.keys
    requires r.Some? ==> && post.core.keys == pre.core.keys[key := r.value] && r.value !in pre.core.heap
                         && SameItems(pre.core.heap[r.value := Item(None, cfg.hash(key), key, value, 1)], post.core.heap)
    ensures SetSpec(cfg, pre, post, c, key, value, r.Some?)
  {
  }

  lemma OnlyFreedSame(m: Memory)
    ensures OnlyFreed(m, m)
  {
  }

  // ---- cleaning ----

  lemma HeldItem(st: KvStore, it: Addr)
    requires st.Valid() && st.held[it] > 0
    ensures it in st.heap && st.heap[it].hv == st.hash(st.heap[it].key) && TotalSize(st.heap[it]) <= st.itemmax
  {
    HeldInHeap(st.C(), st.hash, it);
    assert ItemOk(st.heap, st.Lim(), it);
  }

  /** A reference is dropped: the map stays. */
  method Release(st: KvStore, a: Addr)
    requires st.Valid() && st.held[a] > 0
    modifies st`heap, st`held, st`segs
    ensures st.Valid() && st.View() == old(st.View()) && st.held == old(st.held) - multiset{a}
    ensures OnlyFreed(old(st.M()), st.M()) && SameItems(old(st.heap), st.heap)
  {
    hide CoreOk, AllocOk, Tidy, SameItems, ValuesOf, OnlyFreed;
    ghost var s := st.C();
    st.ItemUnref(a);
    SameItemsValues(s.heap, st.heap, s.keys);
  }

  /** `hasht_put(nit, it)` for a copy nit of it. */
  method PutCopy(st: KvStore, nit: Addr, it: Addr)
    requires st.Valid() && st.held[nit] > 0 && Insertable(st.heap, st.keys, st.hash, nit) && it in st.heap
    requires st.heap[nit].key == st.heap[it].key && st.heap[nit].value == st.heap[it].value
    modifies st`heap, st`buckets, st`segs, st`chains, st`keys
    ensures st.Valid() && st.View() == old(st.View())
    ensures st.keys == if InSlot(old(st.T()), old(st.heap), old(st.heap)[it].key, st.hash, it)
                       then old(st.keys)[old(st.heap)[it].key := nit] else old(st.keys)
    ensures OnlyFreed(old(st.M()), st.M()) && SameItems(old(st.heap), st.heap)
  {
    hide CoreOk, AllocOk, Tidy, SameItems, ValuesOf, InSlot, OnlyFreed;
    ghost var s := st.C();
    st.HashtPut(nit, Some(it));
    if InSlot(s.t, s.heap, s.heap[nit].key, st.hash, it) {
      ValuesMoved(s, st.hash, st.heap, nit, it);
    } else {
      SameItemsValues(s.heap, st.heap, s.keys);
    }
  }

  lemma InSlotFrame(t: Table, heap: Heap, heap': Heap, key: Bytes, hash: Hash, a: Addr)
    requires a in heap && a in heap' && heap'[a].key == heap[a].key
    ensures InSlot(t, heap', key, hash, a) <==> InSlot(t, heap, key, hash, a)
  {
  }

  function KeyAt(heap: Heap, a: Addr): Bytes { if a in heap then heap[a].key else [] }
  function SizeOf(heap: Heap, a: Addr): nat { if a in heap then TotalSize(heap[a]) else 0 }

  /** What copying item it does: the copy goes where `ialloc_alloc` puts it and takes the item's place if that is a slot; or there is no memory. */
  ghost predicate MoveSpec(cfg: Settings, pre: Snapshot, post: Snapshot, c: int, it: Addr, ok: bool) {
    var (g, a) := Ialloc(pre.alloc, c, SizeOf(pre.core.heap, it), true, cfg.maxnum, cfg.segsize);
    var key := KeyAt(pre.core.heap, it);
    && ok == a.Some? && OnlyFreed(g.m, post.alloc.m) && post.alloc == g.(m := post.alloc.m) && post.core.m == post.alloc.m
    && post.core.keys == (if a.Some? && InSlot(pre.core.t, pre.core.heap, key, cfg.hash, it) then pre.core.keys[key := a.value] else pre.core.keys)
    && (a == None ==> post.core.heap == pre.core.heap)
    && (a.Some? ==> a.value !in pre.core.heap && it in pre.core.heap
                    && SameItems(pre.core.heap[a.value := pre.core.heap[it].(next := None, refcount := 1)], post.core.heap))
  }

  /** Item it is copied to the end of core c's log, and the copy takes its place if that is one of the slots. */
  method Relocate(st: KvStore, c: int, it: Addr) returns (ok: bool)
    requires st.Valid() && 0 <= c < |st.ias| && st.held[it] > 0 && it in st.heap
    modifies st
    ensures st.Valid() && st.View() == old(st.View()) && |st.ias| == |old(st.ias)|
    ensures st.ias == old(st.ias)[c := old(st.ias)[c].(cur := st.ias[c].cur, reserved := st.ias[c].reserved)]
    ensures st.held == old(st.held)
    ensures AllHome(old(st.owner)) ==> AllHome(st.owner)
    ensures MoveSpec(st.Cfg(), old(st.Now()), st.Now(), c, it, ok)
  {
    hide KvStore.Valid, AllHome, CoreOk, AllocOk, Tidy, InSlot, ValuesOf, AllocFails, UsesReserve, Ialloc, OnlyFreed, SameItems;
    HeldItem(st, it);
    var copy := st.heap[it].(next := None, refcount := 1);
    assert TotalSize(copy) == SizeOf(st.heap, it) && copy.key == KeyAt(st.heap, it);
    var nit := st.IallocAlloc(c, copy, true);
    ok := nit.Some?;
    OnlyFreedSame(st.M());
    if ok {
      InSlotFrame(st.T(), old(st.heap), st.heap, copy.key, st.hash, it);
      Install(st, nit.value, it);
    }
  }

  /** `hasht_put(nit, it)`, and the worker lets go of the copy. */
  method Install(st: KvStore, nit: Addr, it: Addr)
    requires st.Valid() && st.held[nit] > 0 && Insertable(st.heap, st.keys, st.hash, nit) && it in st.heap
    requires st.heap[nit].key == st.heap[it].key && st.heap[nit].value == st.heap[it].value
    modifies st`heap, st`buckets, st`segs, st`chains, st`keys, st`held
    ensures st.Valid() && st.View() == old(st.View()) && st.held == old(st.held) - multiset{nit}
    ensures st.keys == if InSlot(old(st.T()), old(st.heap), old(st.heap)[it].key, st.hash, it)
                       then old(st.keys)[old(st.heap)[it].key := nit] else old(st.keys)
    ensures OnlyFreed(old(st.M()), st.M()) && SameItems(old(st.heap), st.heap)
  {
    hide KvStore.Valid, CoreOk, InSlot, ValuesOf, OnlyFreed, SameItems, Insertable;
    ghost var m1, h1 := st.M(), st.heap;
    PutCopy(st, nit, it);
    ghost var m2, h2 := st.M(), st.heap;
    Release(st, nit);
    OnlyFreedTransitive(m1, m2, st.M());
    SameItemsTransitive(h1, h2, st.heap);
  }

  /** What cleaning one item does: it is copied if anyone else still refers to it, and the queue's reference goes. */
  ghost predicate ItemSpec(cfg: Settings, pre: Snapshot, post: Snapshot, c: int, it: Addr, ok: bool) {
    && it in pre.core.heap && (ok ==> post.core.held == pre.core.held - multiset{it})
    && (if pre.core.heap[it].refcount == 1
        then ok && OnlyFreed(pre.alloc.m, post.alloc.m) && post.alloc == pre.alloc.(m := post.alloc.m) && post.core.m == post.alloc.m
             && post.core.keys == pre.core.keys && post.core.t == pre.core.t && SameItems(pre.core.heap, post.core.heap)
        else MoveSpec(cfg, pre, post, c, it, ok))
  }

  /**
   What becomes of an item the queue let go of. If nobody else refers to it, it is dead now and nothing
   is copied. Else there is one new item, its copy, in core c's current segment: if the item was in a
   slot the key maps to the copy, and the item has lost two references; else the copy is dead, and
   the item has lost one and stays where it is.
   */
  ghost predicate ItemFate(pre: Core, post: Core, hash: Hash, cur: SegId, it: Addr) {
    && it in pre.heap && it in post.heap
    && if pre.heap[it].refcount == 1
       then post.heap.Keys == pre.heap.Keys && post.heap[it].refcount == 0 && post.keys == pre.keys
       else exists nit :: CopyFate(pre, post, hash, cur, it, nit)
  }

  ghost predicate CopyFate(pre: Core, post: Core, hash: Hash, cur: SegId, it: Addr, nit: Addr) {
    && it in pre.heap && it in post.heap && nit !in pre.heap && nit in post.heap && nit.seg == cur
    && post.heap.Keys == pre.heap.Keys + {nit}
    && post.heap[nit].key == pre.heap[it].key && post.heap[nit].value == pre.heap[it].value
    && if InSlot(pre.t, pre.heap, pre.heap[it].key, hash, it)
       then post.keys == pre.keys[pre.heap[it].key := nit] && post.heap[nit].refcount == 1 && post.heap[it].refcount == pre.heap[it].refcount - 2
       else post.keys == pre.keys && post.heap[nit].refcount == 0 && post.heap[it].refcount == pre.heap[it].refcount - 1
  }

  lemma PlacedAtCur(g: Alloc, c: int, total: nat, maxnum: nat, segsize: nat)
    ensures var (g', a) := Ialloc(g, c, total, true, maxnum, segsize);
            a.Some? ==> a.value.seg == Cur(g', c)
  {
  }

  lemma SlotIsMapped(s: Core, hash: Hash, it: Addr)
    requires CoreOk(s, hash) && it in s.heap && InSlot(s.t, s.heap, s.heap[it].key, hash, it)
    ensures Linked(s.heap, s.keys, it)
  {
    var b := BucketOf(hash(s.heap[it].key), |s.t.buckets|);
    var i :| 0 <= i < BUCKET_NITEMS && At(s.t, b, i) == Some(it);
    assert PositionOk(s.heap, s.t, s.keys, hash, b, i);
  }

  /** The counts on both sides follow from who links and holds the item. */
  lemma ItemSpecFate(cfg: Settings, pre: Snapshot, post: Snapshot, c: int, it: Addr)
    requires CoreOk(pre.core, cfg.hash) && CoreOk(post.core, cfg.hash) && pre.core.held[it] > 0
    requires ItemSpec(cfg, pre, post, c, it, true)
    ensures ItemFate(pre.core, post.core, cfg.hash, Cur(post.alloc, c), it)
  {
    var s, s' := pre.core, post.core;
    assert RefOk(s.heap, s.keys, s.held, it) && RefOk(s'.heap, s'.keys, s'.held, it);
    if s.heap[it].refcount == 1 {
      hide CoreOk, MoveSpec, OnlyFreed;
      assert SameContent(s.heap, s'.heap, it);
    } else {
      var (g, a) := Ialloc(pre.alloc, c, SizeOf(s.heap, it), true, cfg.maxnum, cfg.segsize);
      PlacedAtCur(pre.alloc, c, SizeOf(s.heap, it), cfg.maxnum, cfg.segsize);
      var nit := a.value;
      MovedHeap(s, s', it, nit);
      assert RefOk(s.heap, s.keys, s.held, nit) && RefOk(s'.heap, s'.keys, s'.held, nit);
      if InSlot(s.t, s.heap, s.heap[it].key, cfg.hash, it) { SlotIsMapped(s, cfg.hash, it); } else { NotMappedYet(s, cfg.hash, nit); }
      hide CoreOk, Ialloc, OnlyFreed, InSlot, SameItems;
      assert CopyFate(s, s', cfg.hash, Cur(post.alloc, c), it, nit);
    }
  }

  lemma MovedHeap(s: Core, s': Core, it: Addr, nit: Addr)
    requires it in s.heap && nit !in s.heap && SameItems(s.heap[nit := s.heap[it].(next := None, refcount := 1)], s'.heap)
    ensures it in s'.heap && nit in s'.heap && s'.heap.Keys == s.heap.Keys + {nit}
    ensures s'.heap[it].key == s.heap[it].key && s'.heap[nit].key == s.heap[it].key && s'.heap[nit].value == s.heap[it].value
  {
    var heap := s.heap[nit := s.heap[it].(next := None, refcount := 1)];
    assert SameContent(heap, s'.heap, it) && SameContent(heap, s'.heap, nit);
  }

  /** An address that is no item is no key's item. */
  lemma NotMappedYet(s: Core, hash: Hash, a: Addr)
    requires CoreOk(s, hash) && a !in s.heap
    ensures forall k :: k in s.keys ==> s.keys[k] != a
  {
    forall k | k in s.keys ensures s.keys[k] != a { assert KeyOk(s.heap, s.t, s.keys, hash, k); }
  }

  /** The body of the loop of `clean_log`, for item it, whose reference came from the queue. */
  method CleanOne(st: KvStore, c: int, it: Addr) returns (ok: bool)
    requires st.Valid() && 0 <= c < |st.ias| && st.held[it] > 0
    modifies st
    ensures st.Valid() && st.View() == old(st.View()) && |st.ias| == |old(st.ias)|
    ensures st.ias == old(st.ias)[c := old(st.ias)[c].(cur := st.ias[c].cur, reserved := st.ias[c].reserved)]
    ensures ok ==> st.held == old(st.held) - multiset{it}
    ensures AllHome(old(st.owner)) ==> AllHome(st.owner)
    ensures ItemSpec(st.Cfg(), old(st.Now()), st.Now(), c, it, ok)
    ensures ok ==> ItemFate(old(st.C()), st.C(), st.hash, st.ias[c].cur, it)
  {
    hide KvStore.Valid, AllHome, CoreOk, AllocOk, Tidy, ValuesOf, MoveSpec, OnlyFreed, SameItems, ItemFate, ItemSpec;
    ValidCore(st);
    HeldItem(st, it);
    ghost var pre := st.Now();
    ok := true;
    if st.heap[it].refcount != 1 {
      ok := Relocate(st, c, it);
      ghost var mid := st.Now();
      if ok { Release(st, it); }
      MovedItem(st.Cfg(), pre, mid, st.Now(), c, it, ok);
    } else {
      Release(st, it);
      DroppedItem(st.Cfg(), pre, st.Now(), c, it);
    }
    ValidCore(st);
    if ok { ItemSpecFate(st.Cfg(), pre, st.Now(), c, it); }
  }

  lemma MovedItem(cfg: Settings, pre: Snapshot, mid: Snapshot, post: Snapshot, c: int, it: Addr, ok: bool)
    requires it in pre.core.heap && pre.core.heap[it].refcount != 1 && MoveSpec(cfg, pre, mid, c, it, ok)
    requires if ok then && OnlyFreed(mid.alloc.m, post.alloc.m) && post.alloc == mid.alloc.(m := post.alloc.m) && post.core.m == post.alloc.m
                        && post.core.keys == mid.core.keys && SameItems(mid.core.heap, post.core.heap)
                        && post.core.held == pre.core.held - multiset{it}
             else post == mid
    ensures ItemSpec(cfg, pre, post, c, it, ok)
  {
    hide MoveSpec, OnlyFreed, SameItems;
    if ok { MoveReleased(cfg, pre, mid, post, c, it); }
  }

  lemma DroppedItem(cfg: Settings, pre: Snapshot, post: Snapshot, c: int, it: Addr)
    requires it in pre.core.heap && pre.core.heap[it].refcount == 1 && post.core.held == pre.core.held - multiset{it}
    requires OnlyFreed(pre.alloc.m, post.alloc.m) && post.alloc == pre.alloc.(m := post.alloc.m) && post.core.m == post.alloc.m
    requires post.core.keys == pre.core.keys && post.core.t == pre.core.t && SameItems(pre.core.heap, post.core.heap)
    ensures ItemSpec(cfg, pre, post, c, it, true)
  {
    hide MoveSpec, OnlyFreed, SameItems;
  }

  lemma ValidCore(st: KvStore)
    requires st.Valid()
    ensures CoreOk(st.C(), st.hash)
  {
  }

  /** Dropping the queue's reference changes nothing a move is judged by. */
  lemma MoveReleased(cfg: Settings, pre: Snapshot, mid: Snapshot, post: Snapshot, c: int, it: Addr)
    requires MoveSpec(cfg, pre, mid, c, it, true) && OnlyFreed(mid.alloc.m, post.alloc.m) && post.alloc == mid.alloc.(m := post.alloc.m)
    requires post.core.m == post.alloc.m && post.core.keys == mid.core.keys && SameItems(mid.core.heap, post.core.heap)
    ensures MoveSpec(cfg, pre, post, c, it, true)
  {
    hide OnlyFreed, SameItems, Ialloc, InSlot;
    var (g, a) := Ialloc(pre.alloc, c, SizeOf(pre.core.heap, it), true, cfg.maxnum, cfg.segsize);
    OnlyFreedTransitive(g.m, mid.alloc.m, post.alloc.m);
    SameItemsTransitive(pre.core.heap[a.value := pre.core.heap[it].(next := None, refcount := 1)], mid.core.heap, post.core.heap);
  }

  /** How many items one call of `clean_log` takes from a queue of length n. */
  function Quota(n: nat, idle: bool): nat {
    if idle || n <= CLEANUP_LIMIT then n else CLEANUP_LIMIT
  }

  /** The state in which an item just taken from the queue is cleaned. */
  function Picked(cfg: Settings, pre: Snapshot, c: int, idle: bool): Snapshot {
    var g := Taken(pre.alloc, c, idle, cfg.maxnum, cfg.segsize);
    Snapshot(pre.core.(m := g.m), g)
  }

  /** What one turn of the loop of `clean_log` does; `more` says that there was an item to clean. */
  ghost predicate TurnSpec(cfg: Settings, pre: Snapshot, post: Snapshot, c: int, idle: bool, more: bool, ok: bool) {
    var q := Queue(pre.alloc, c);
    && (more <==> q != [] && !Limited(pre.alloc, c, idle))
    && (if Limited(pre.alloc, c, idle) then ok && post == pre
        else if q == [] then ok && post == Picked(cfg, pre, c, idle)
        else ItemSpec(cfg, Picked(cfg, pre, c, idle), post, c, q[0], ok))
  }

  /** The turn that fails: an item that others refer to, and no segment for its copy, the reserve included. */
  ghost predicate TurnFails(cfg: Settings, pre: Snapshot, c: int, idle: bool) {
    var q, mid := Queue(pre.alloc, c), Picked(cfg, pre, c, idle);
    && q != [] && !Limited(pre.alloc, c, idle) && q[0] in mid.core.heap && mid.core.heap[q[0]].refcount != 1
    && Ialloc(mid.alloc, c, SizeOf(mid.core.heap, q[0]), true, cfg.maxnum, cfg.segsize).1 == None
  }

  lemma TurnFailsIff(cfg: Settings, pre: Snapshot, post: Snapshot, c: int, idle: bool, more: bool, ok: bool)
    requires TurnSpec(cfg, pre, post, c, idle, more, ok)
    ensures !ok <==> TurnFails(cfg, pre, c, idle)
  {
    hide OnlyFreed, SameItems, Ialloc, InSlot, Taken;
  }

  method CleanTurn(st: KvStore, c: int, idle: bool, ghost others: multiset<Addr>) returns (more: bool, ok: bool)
    requires Settled(st, others) && 0 <= c < |st.ias|
    modifies st
    ensures st.Valid() && st.View() == old(st.View()) && |st.ias| == |old(st.ias)|
    ensures TurnSpec(st.Cfg(), old(st.Now()), st.Now(), c, idle, more, ok)
    ensures Stock(st.G(), c, st.segmaxnum) + 1 >= Stock(old(st.G()), c, st.segmaxnum) && (Stock(old(st.G()), c, st.segmaxnum) > 0 ==> ok)
    ensures more <==> old(st.ias)[c].queue != [] && (idle || old(st.ias)[c].cleanupCount < CLEANUP_LIMIT)
    ensures ok ==> Settled(st, others)
    ensures !more ==> ok && st.ias[c].queue == old(st.ias)[c].queue
    ensures more ==> st.ias[c].queue == old(st.ias)[c].queue[1..]
    ensures more && !idle ==> st.ias[c].cleanupCount == old(st.ias)[c].cleanupCount + 1
    ensures forall d :: 0 <= d < |st.ias| && d != c ==> st.ias[d] == old(st.ias)[d]
  {
    hide KvStore.Valid, AllHome, CoreOk, AllocOk, Tidy, ValuesOf, Queued, ItemSpec, Taken, Stock;
    ghost var was, pre := st.ias, st.Now();
    ValidAlloc(st);
    var it := st.CleanupItem(c, idle);
    ValidAlloc(st);
    more := it.Some?;
    if more {
      QueuedPop(was, c, st.ias[c], others);
      was := st.ias;
      ok := CleanOne(st, c, it.value);
      QueuedSame(was, c, st.ias[c]);
    } else {
      QueuedSame(was, c, st.ias[c]);
      ok := true;
    }
    TurnStock(st.Cfg(), pre, st.Now(), c, idle, more, ok);
  }

  lemma ValidAlloc(st: KvStore)
    requires st.Valid()
    ensures Ok(st.G())
  {
  }

  /** A turn takes at most one of the segments core c can get, and with one to get it does not fail. */
  lemma TurnStock(cfg: Settings, pre: Snapshot, post: Snapshot, c: int, idle: bool, more: bool, ok: bool)
    requires TurnSpec(cfg, pre, post, c, idle, more, ok) && Ok(pre.alloc) && 0 <= c < |pre.alloc.ias|
    requires !Limited(pre.alloc, c, idle) ==> Ok(Picked(cfg, pre, c, idle).alloc) && 0 <= c < |Picked(cfg, pre, c, idle).alloc.ias|
    ensures Stock(post.alloc, c, cfg.maxnum) + 1 >= Stock(pre.alloc, c, cfg.maxnum)
    ensures Stock(pre.alloc, c, cfg.maxnum) > 0 ==> ok
  {
    TakenStock(pre.alloc, c, idle, cfg.maxnum, cfg.segsize);
    var q, mid := Queue(pre.alloc, c), Picked(cfg, pre, c, idle);
    if q != [] && !Limited(pre.alloc, c, idle) { IallocStock(mid.alloc, c, SizeOf(mid.core.heap, q[0]), true, cfg.maxnum, cfg.segsize); }
    hide OnlyFreed, SameItems, Ialloc, InSlot, Taken, AllocOk;
  }

  /** `clean_log` starts a new request's count unless the worker is idle. */
  function Fresh(pre: Snapshot, c: int, idle: bool): Snapshot {
    if idle then pre else pre.(alloc := Worked(pre.alloc, c, Queue(pre.alloc, c), 0))
  }

  /** The states between the turns of one call, n of which cleaned an item or failed to. */
  ghost predicate LogSpec(cfg: Settings, pre: Snapshot, post: Snapshot, c: int, idle: bool, ok: bool, n: nat, trace: seq<Snapshot>) {
    && |trace| == n + 1 && trace[0] == Fresh(pre, c, idle)
    && (forall i :: 0 <= i < n ==> TurnSpec(cfg, trace[i], trace[i + 1], c, idle, true, ok || i < n - 1))
    && (if ok then TurnSpec(cfg, trace[n], post, c, idle, false, true) else n > 0 && post == trace[n])
  }

  /** A call fails if and only if some turn does; its items are those taken from the queue in order. */
  lemma LogFailsIff(cfg: Settings, pre: Snapshot, post: Snapshot, c: int, idle: bool, ok: bool, n: nat, trace: seq<Snapshot>)
    requires LogSpec(cfg, pre, post, c, idle, ok, n, trace)
    ensures !ok <==> n > 0 && TurnFails(cfg, trace[n - 1], c, idle)
    ensures forall i :: 0 <= i < n - 1 ==> !TurnFails(cfg, trace[i], c, idle)
  {
    hide TurnSpec, TurnFails;
    forall i | 0 <= i < n ensures !(ok || i < n - 1) <==> TurnFails(cfg, trace[i], c, idle) {
      TurnFailsIff(cfg, trace[i], trace[i + 1], c, idle, true, ok || i < n - 1);
    }
  }

  /**
   `clean_log`: whatever the queue holds and whether or not the relocations go through, the map stays.
   It fails, where the source aborts, exactly when there is no memory for a copy; that cannot be if core
   c can get as many segments as items are taken.
   */
  method CleanLog(st: KvStore, c: int, idle: bool, ghost others: multiset<Addr>) returns (ok: bool, n: nat, ghost trace: seq<Snapshot>)
    requires Settled(st, others) && 0 <= c < |st.ias|
    modifies st
    ensures st.Valid() && st.View() == old(st.View()) && |st.ias| == |old(st.ias)|
    ensures LogSpec(st.Cfg(), old(st.Now()), st.Now(), c, idle, ok, n, trace)
    ensures !ok <==> n > 0 && |trace| > n && TurnFails(st.Cfg(), trace[n - 1], c, idle)
    ensures Stock(old(st.G()), c, st.segmaxnum) >= Quota(|old(st.ias)[c].queue|, idle) ==> ok
    ensures ok ==> Settled(st, others)
    ensures ok ==> n == Quota(|old(st.ias)[c].queue|, idle) && st.ias[c].queue == old(st.ias)[c].queue[n..]
    ensures n <= Quota(|old(st.ias)[c].queue|, idle)
    ensures forall d :: 0 <= d < |st.ias| && d != c ==> st.ias[d] == old(st.ias)[d]
  {
    hide KvStore.Valid, AllHome, CoreOk, AllocOk, Tidy, ValuesOf, Queued, TurnSpec, TurnFails;
    ghost var queue, pre, stock := st.ias[c].queue, st.Now(), Stock(st.G(), c, st.segmaxnum);
    if !idle {
      ghost var was := st.ias;
      st.SetWork(c, st.ias[c].queue, 0);
      QueuedSame(was, c, st.ias[c]);
    }
    hide Stock;
    n := 0;
    var more := true;
    ok := true;
    trace := [st.Now()];
    while more && ok
      invariant st.Valid() && st.View() == old(st.View()) && |st.ias| == |old(st.ias)|
      invariant ok ==> Settled(st, others)
      invariant n <= |queue| && st.ias[c].queue == queue[n..] && (!idle ==> n <= CLEANUP_LIMIT && (more ==> st.ias[c].cleanupCount == n))
      invariant !more ==> ok && n == Quota(|queue|, idle)
      invariant |trace| == n + 1 && trace[0] == Fresh(pre, c, idle)
      invariant forall i :: 0 <= i < n ==> TurnSpec(st.Cfg(), trace[i], trace[i + 1], c, idle, true, ok || i < n - 1)
      invariant if !more then TurnSpec(st.Cfg(), trace[n], st.Now(), c, idle, false, true) else st.Now() == trace[n]
      invariant !ok ==> n > 0
      invariant Stock(st.G(), c, st.segmaxnum) + n >= stock || !more
      invariant stock >= Quota(|queue|, idle) ==> ok
      invariant forall d :: 0 <= d < |st.ias| && d != c ==> st.ias[d] == old(st.ias)[d]
      decreases |queue| - n, more, ok
    {
      more, ok := CleanTurn(st, c, idle, others);
      if more {
        n := n + 1;
        trace := trace + [st.Now()];
      }
    }
    LogFailsIff(st.Cfg(), pre, st.Now(), c, idle, ok, n, trace);
  }
}
