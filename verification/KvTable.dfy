/**
 The FlexKVS item table: buckets of five slots whose last slot heads an overflow chain linked through
 the items. The invariant ties it to an abstract map from keys to items; the lemmas below are the
 three ways `hasht_put` changes it.
 */
module KvTable {
  import opened Basics

  type Bytes = seq<int>
  type SegId = int

  /** A pointer into segment memory. */
  datatype Addr = Addr(seg: SegId, off: int)

  const ITEM_HEADER: nat := 24
  const BUCKET_NITEMS: nat := 5
  const LAST_SLOT: nat := 4

  datatype Item = Item(next: Option<Addr>, hv: nat, key: Bytes, value: Bytes, refcount: nat)

  /** `item_totalsz` */
  function TotalSize(it: Item): nat { ITEM_HEADER + |it.value| + |it.key| }

  datatype Bucket = Bucket(items: seq<Option<Addr>>, hashes: seq<nat>)

  type Heap = map<Addr, Item>
  type Hash = Bytes -> nat

  /** The table: buckets, and for each the addresses on its overflow chain. */
  datatype Table = Table(buckets: seq<Bucket>, chains: seq<seq<Addr>>)

  /** Position j of bucket b: a slot for j < 5, then the chain. */
  function At(t: Table, b: int, j: int): Option<Addr> {
    if !(0 <= b < |t.buckets| && b < |t.chains|) then None
    else if 0 <= j < BUCKET_NITEMS && j < |t.buckets[b].items| then t.buckets[b].items[j]
    else if BUCKET_NITEMS <= j < BUCKET_NITEMS + |t.chains[b]| then Some(t.chains[b][j - BUCKET_NITEMS])
    else None
  }

  function HashAt(t: Table, b: int, j: int): int {
    if 0 <= b < |t.buckets| && 0 <= j < |t.buckets[b].hashes| then t.buckets[b].hashes[j] else -1
  }

  function BucketOf(hv: nat, n: nat): (b: int)
    requires n > 0
    ensures 0 <= b < n
  {
    hv % n
  }

  /** An item in bucket b hashes there, and is the one the map gives for its key. */
  ghost predicate MemberOk(heap: Heap, t: Table, keys: map<Bytes, Addr>, hash: Hash, b: int, a: Addr) {
    && a in heap && |t.buckets| > 0
    && heap[a].hv == hash(heap[a].key) && BucketOf(heap[a].hv, |t.buckets|) == b
    && heap[a].key in keys && keys[heap[a].key] == a
  }

  /** From the last slot on, `next` links the positions; the other slots carry no chain. */
  ghost predicate PositionOk(heap: Heap, t: Table, keys: map<Bytes, Addr>, hash: Hash, b: int, j: int) {
    At(t, b, j).Some? ==>
      var a := At(t, b, j).value;
      && MemberOk(heap, t, keys, hash, b, a)
      && (j < BUCKET_NITEMS ==> HashAt(t, b, j) == heap[a].hv)
      && heap[a].next == (if j < LAST_SLOT then None else At(t, b, j + 1))
  }

  ghost predicate Distinct(t: Table, b: int, i: int, j: int) {
    At(t, b, i).Some? && i != j ==> At(t, b, i) != At(t, b, j)
  }

  ghost predicate ShapeOk(t: Table, b: int) {
    0 <= b < |t.buckets| && b < |t.chains| ==>
      && |t.buckets[b].items| == BUCKET_NITEMS && |t.buckets[b].hashes| == BUCKET_NITEMS
      && (t.buckets[b].items[LAST_SLOT] == None ==> t.chains[b] == [])
  }

  /** Every key of the map is found in its bucket. */
  ghost predicate KeyOk(heap: Heap, t: Table, keys: map<Bytes, Addr>, hash: Hash, k: Bytes) {
    k in keys && |t.buckets| > 0 ==>
      && keys[k] in heap && heap[keys[k]].key == k
      && exists j :: At(t, BucketOf(hash(k), |t.buckets|), j) == Some(keys[k])
  }

  ghost predicate TableOk(heap: Heap, t: Table, keys: map<Bytes, Addr>, hash: Hash) {
    && |t.buckets| == |t.chains| && |t.buckets| > 0
    && (forall b: int :: ShapeOk(t, b))
    && (forall b: int, j: int :: PositionOk(heap, t, keys, hash, b, j))
    && (forall b: int, i: int, j: int :: Distinct(t, b, i, j))
    && (forall k: Bytes :: KeyOk(heap, t, keys, hash, k))
  }

  /** A linked item: the one the map gives for its own key. */
  predicate Linked(heap: Heap, keys: map<Bytes, Addr>, a: Addr) {
    a in heap && heap[a].key in keys && keys[heap[a].key] == a
  }

  // ---- frame rule: the table reads only the linked items' next, hv and key ----

  ghost predicate SameLinks(heap: Heap, heap': Heap, keys: map<Bytes, Addr>, a: Addr) {
    Linked(heap, keys, a) ==>
      a in heap' && heap'[a].next == heap[a].next && heap'[a].hv == heap[a].hv && heap'[a].key == heap[a].key
  }

  lemma TableFrame(heap: Heap, heap': Heap, t: Table, keys: map<Bytes, Addr>, hash: Hash)
    requires TableOk(heap, t, keys, hash)
    requires forall a: Addr :: SameLinks(heap, heap', keys, a)
    ensures TableOk(heap', t, keys, hash)
  {
    forall b: int, j: int ensures PositionOk(heap', t, keys, hash, b, j) {
      assert PositionOk(heap, t, keys, hash, b, j);
      if At(t, b, j).Some? { assert SameLinks(heap, heap', keys, At(t, b, j).value); }
    }
    forall k: Bytes ensures KeyOk(heap', t, keys, hash, k) {
      assert KeyOk(heap, t, keys, hash, k);
      if k in keys { assert SameLinks(heap, heap', keys, keys[k]); }
    }
  }

  /** Position j of bucket b does not hold the key. */
  ghost predicate Misses(heap: Heap, t: Table, b: int, j: int, key: Bytes) {
    At(t, b, j).Some? ==> At(t, b, j).value in heap && heap[At(t, b, j).value].key != key
  }

  /** A key that is at no position of its bucket is not in the map. */
  lemma NotInMap(heap: Heap, t: Table, keys: map<Bytes, Addr>, hash: Hash, key: Bytes)
    requires TableOk(heap, t, keys, hash)
    requires forall j: int :: Misses(heap, t, BucketOf(hash(key), |t.buckets|), j, key)
    ensures key !in keys
  {
    var b := BucketOf(hash(key), |t.buckets|);
    assert KeyOk(heap, t, keys, hash, key);
    assert forall j: int :: At(t, b, j).Some? ==> Misses(heap, t, b, j, key);
  }

  // ---- the three updates of hasht_put ----

  /** Put address a at position j of bucket b, in place of what is there. */
  function ReplaceAt(t: Table, b: int, j: int, a: Addr, hv: nat): Table
    requires 0 <= b < |t.buckets| == |t.chains| && |t.buckets[b].items| == |t.buckets[b].hashes| == BUCKET_NITEMS
    requires 0 <= j < BUCKET_NITEMS + |t.chains[b]|
  {
    if j < BUCKET_NITEMS then
      t.(buckets := t.buckets[b := Bucket(t.buckets[b].items[j := Some(a)], t.buckets[b].hashes[j := hv])])
    else
      t.(chains := t.chains[b := t.chains[b][j - BUCKET_NITEMS := a]])
  }

  /** Put address a in the last slot and push what was there onto the chain. */
  function PushFront(t: Table, b: int, a: Addr, hv: nat): Table
    requires 0 <= b < |t.buckets| == |t.chains| && |t.buckets[b].items| == |t.buckets[b].hashes| == BUCKET_NITEMS
    requires t.buckets[b].items[LAST_SLOT].Some?
  {
    Table(t.buckets[b := Bucket(t.buckets[b].items[LAST_SLOT := Some(a)], t.buckets[b].hashes[LAST_SLOT := hv])],
          t.chains[b := [t.buckets[b].items[LAST_SLOT].value] + t.chains[b]])
  }

  lemma ReplaceAtPositions(t: Table, b: int, j: int, a: Addr, hv: nat)
    requires 0 <= b < |t.buckets| == |t.chains| && |t.buckets[b].items| == |t.buckets[b].hashes| == BUCKET_NITEMS
    requires 0 <= j < BUCKET_NITEMS + |t.chains[b]|
    ensures forall c: int, i: int :: At(ReplaceAt(t, b, j, a, hv), c, i) == if c == b && i == j then Some(a) else At(t, c, i)
  {
  }

  lemma PushFrontPositions(t: Table, b: int, a: Addr, hv: nat)
    requires 0 <= b < |t.buckets| == |t.chains| && |t.buckets[b].items| == |t.buckets[b].hashes| == BUCKET_NITEMS
    requires t.buckets[b].items[LAST_SLOT].Some?
    ensures forall c: int, i: int :: At(PushFront(t, b, a, hv), c, i) == PushedAt(t, b, a, c, i)
  {
    var t' := PushFront(t, b, a, hv);
    forall c: int, i: int ensures At(t', c, i) == PushedAt(t, b, a, c, i) {
      if c == b && BUCKET_NITEMS < i {
        assert t'.chains[b] == [t.buckets[b].items[LAST_SLOT].value] + t.chains[b];
      }
    }
  }

  function PushedAt(t: Table, b: int, a: Addr, c: int, i: int): Option<Addr> {
    if c != b || i < LAST_SLOT then At(t, c, i)
    else if i == LAST_SLOT then Some(a)
    else At(t, c, i - 1)
  }

  /** The new item nit is in the heap, not linked, and carries its key's hash. */
  ghost predicate Insertable(heap: Heap, keys: map<Bytes, Addr>, hash: Hash, nit: Addr) {
    nit in heap && !Linked(heap, keys, nit) && heap[nit].hv == hash(heap[nit].key)
  }

  /** heap' has heap's items with the given `next` link at the given addresses. */
  ghost predicate Relinked(heap: Heap, heap': Heap, links: map<Addr, Option<Addr>>, a: Addr) {
    a in heap ==>
      && a in heap' && heap'[a].hv == heap[a].hv && heap'[a].key == heap[a].key
      && heap'[a].next == if a in links then links[a] else heap[a].next
  }

  /** A member of the table is linked, so it is not the new item, and it keeps its place under a new entry for key. */
  lemma MemberKept(heap: Heap, t: Table, keys: map<Bytes, Addr>, hash: Hash, b: int, j: int, nit: Addr)
    requires TableOk(heap, t, keys, hash) && Insertable(heap, keys, hash, nit) && At(t, b, j).Some?
    ensures var a := At(t, b, j).value;
            && a in heap && a != nit && Linked(heap, keys, a)
            && (heap[a].key == heap[nit].key <==> heap[nit].key in keys && keys[heap[nit].key] == a)
  {
    assert PositionOk(heap, t, keys, hash, b, j) && KeyOk(heap, t, keys, hash, heap[nit].key);
  }

  /** An address stands at one position of one bucket. */
  lemma OnePlace(heap: Heap, t: Table, keys: map<Bytes, Addr>, hash: Hash, b: int, j: int, c: int, i: int)
    requires TableOk(heap, t, keys, hash) && At(t, b, j).Some? && At(t, b, j) == At(t, c, i)
    ensures b == c && j == i
  {
    assert PositionOk(heap, t, keys, hash, b, j) && PositionOk(heap, t, keys, hash, c, i) && Distinct(t, b, j, i);
  }

  /** Cases one and two: the key is at position j, in a slot or on the chain. */
  lemma ReplaceOk(heap: Heap, heap': Heap, t: Table, keys: map<Bytes, Addr>, hash: Hash, b: int, j: int, nit: Addr)
    requires TableOk(heap, t, keys, hash) && Insertable(heap, keys, hash, nit)
    requires b == BucketOf(heap[nit].hv, |t.buckets|) && 0 <= j < BUCKET_NITEMS + |t.chains[b]|
    requires At(t, b, j).Some? && At(t, b, j).value in heap && heap[At(t, b, j).value].key == heap[nit].key
    requires ShapeOk(t, b)
    requires forall a: Addr :: Relinked(heap, heap', LinksFor(heap, t, b, j, nit), a)
    ensures TableOk(heap', ReplaceAt(t, b, j, nit, heap[nit].hv), keys[heap[nit].key := nit], hash)
  {
    var t', keys', key := ReplaceAt(t, b, j, nit, heap[nit].hv), keys[heap[nit].key := nit], heap[nit].key;
    ReplaceAtPositions(t, b, j, nit, heap[nit].hv);
    forall c: int ensures ShapeOk(t', c) { assert ShapeOk(t, c); }
    forall c: int, i: int ensures PositionOk(heap', t', keys', hash, c, i) {
      ReplacedPosition(heap, heap', t, keys, hash, b, j, nit, c, i);
    }
    hide ReplaceAt;
    forall c: int, i: int, k: int ensures Distinct(t', c, i, k) {
      assert Distinct(t, c, i, k);
      if At(t, c, i).Some? { MemberKept(heap, t, keys, hash, c, i, nit); }
      if At(t, c, k).Some? { MemberKept(heap, t, keys, hash, c, k, nit); }
    }
    MemberKept(heap, t, keys, hash, b, j, nit);
    forall k: Bytes ensures KeyOk(heap', t', keys', hash, k) {
      assert KeyOk(heap, t, keys, hash, k);
      if k == key {
        assert Relinked(heap, heap', LinksFor(heap, t, b, j, nit), nit) && At(t', b, j) == Some(nit);
      } else if k in keys {
        var i :| At(t, BucketOf(hash(k), |t.buckets|), i) == Some(keys[k]);
        assert Relinked(heap, heap', LinksFor(heap, t, b, j, nit), keys[k]);
        assert At(t', BucketOf(hash(k), |t.buckets|), i) == Some(keys[k]);
      }
    }
  }

  /** The links hasht_put rewrites when it puts nit at position j: nit's own, and its predecessor's on the chain. */
  function LinksFor(heap: Heap, t: Table, b: int, j: int, nit: Addr): map<Addr, Option<Addr>>
    requires At(t, b, j).Some? && At(t, b, j).value in heap
  {
    var own := map[nit := heap[At(t, b, j).value].next];
    if j >= BUCKET_NITEMS && At(t, b, j - 1).Some? then own[At(t, b, j - 1).value := Some(nit)] else own
  }

  lemma ReplacedPosition(heap: Heap, heap': Heap, t: Table, keys: map<Bytes, Addr>, hash: Hash, b: int, j: int, nit: Addr, c: int, i: int)
    requires TableOk(heap, t, keys, hash) && Insertable(heap, keys, hash, nit) && ShapeOk(t, b)
    requires b == BucketOf(heap[nit].hv, |t.buckets|) && 0 <= j < BUCKET_NITEMS + |t.chains[b]|
    requires At(t, b, j).Some? && At(t, b, j).value in heap && heap[At(t, b, j).value].key == heap[nit].key
    requires forall a: Addr :: Relinked(heap, heap', LinksFor(heap, t, b, j, nit), a)
    ensures PositionOk(heap', ReplaceAt(t, b, j, nit, heap[nit].hv), keys[heap[nit].key := nit], hash, c, i)
  {
    var t', links := ReplaceAt(t, b, j, nit, heap[nit].hv), LinksFor(heap, t, b, j, nit);
    ReplaceAtPositions(t, b, j, nit, heap[nit].hv);
    assert PositionOk(heap, t, keys, hash, b, j);
    assert Relinked(heap, heap', links, nit);
    MemberKept(heap, t, keys, hash, b, j, nit);
    if j >= BUCKET_NITEMS {
      assert At(t, b, j - 1).Some?;
      MemberKept(heap, t, keys, hash, b, j - 1, nit);
    }
    if (c != b || i != j) && At(t, c, i).Some? {
      var a := At(t, c, i).value;
      assert PositionOk(heap, t, keys, hash, c, i);
      MemberKept(heap, t, keys, hash, c, i, nit);
      assert Relinked(heap, heap', links, a);
      if At(t, b, j) == At(t, c, i) { OnePlace(heap, t, keys, hash, b, j, c, i); }
      if j >= BUCKET_NITEMS && At(t, b, j - 1) == At(t, c, i) { OnePlace(heap, t, keys, hash, b, j - 1, c, i); }
      assert HashAt(t', c, i) == HashAt(t, c, i);
    }
  }

  /** Case three: the key is nowhere and slot j is empty. */
  lemma FillSlotOk(heap: Heap, heap': Heap, t: Table, keys: map<Bytes, Addr>, hash: Hash, b: int, j: int, nit: Addr)
    requires TableOk(heap, t, keys, hash) && Insertable(heap, keys, hash, nit) && heap[nit].key !in keys
    requires b == BucketOf(heap[nit].hv, |t.buckets|) && ShapeOk(t, b)
    requires 0 <= j < BUCKET_NITEMS && At(t, b, j) == None
    requires forall a: Addr :: Relinked(heap, heap', map[nit := None], a)
    ensures TableOk(heap', ReplaceAt(t, b, j, nit, heap[nit].hv), keys[heap[nit].key := nit], hash)
  {
    var t', keys', key := ReplaceAt(t, b, j, nit, heap[nit].hv), keys[heap[nit].key := nit], heap[nit].key;
    ReplaceAtPositions(t, b, j, nit, heap[nit].hv);
    forall c: int ensures ShapeOk(t', c) { assert ShapeOk(t, c); }
    assert Relinked(heap, heap', map[nit := None], nit);
    forall c: int, i: int ensures PositionOk(heap', t', keys', hash, c, i) {
      assert PositionOk(heap, t, keys, hash, c, i);
      if At(t, c, i).Some? {
        MemberKept(heap, t, keys, hash, c, i, nit);
        assert Relinked(heap, heap', map[nit := None], At(t, c, i).value);
        assert HashAt(t', c, i) == HashAt(t, c, i);
      }
    }
    InsertedElsewhere(heap, heap', t, t', keys, keys', hash, b, j, nit, map[nit := None]);
  }

  /** Distinctness and lookups survive an insertion at a position that was empty or made room. */
  lemma InsertedElsewhere(heap: Heap, heap': Heap, t: Table, t': Table, keys: map<Bytes, Addr>, keys': map<Bytes, Addr>,
                          hash: Hash, b: int, j: int, nit: Addr, links: map<Addr, Option<Addr>>)
    requires nit in heap && keys' == keys[heap[nit].key := nit]
    requires TableOk(heap, t, keys, hash) && Insertable(heap, keys, hash, nit) && heap[nit].key !in keys
    requires b == BucketOf(heap[nit].hv, |t.buckets|) && |t'.buckets| == |t.buckets| && At(t, b, j) == None
    requires forall c: int, i: int :: At(t', c, i) == if c == b && i == j then Some(nit) else At(t, c, i)
    requires forall a: Addr :: Relinked(heap, heap', links, a)
    ensures forall c: int, i: int, k: int :: Distinct(t', c, i, k)
    ensures forall k: Bytes :: KeyOk(heap', t', keys', hash, k)
  {
    forall c: int, i: int, k: int ensures Distinct(t', c, i, k) {
      assert Distinct(t, c, i, k);
      if At(t, c, i).Some? { MemberKept(heap, t, keys, hash, c, i, nit); }
      if At(t, c, k).Some? { MemberKept(heap, t, keys, hash, c, k, nit); }
    }
    forall k: Bytes ensures KeyOk(heap', t', keys', hash, k) {
      assert KeyOk(heap, t, keys, hash, k);
      if k == heap[nit].key {
        assert Relinked(heap, heap', links, nit) && At(t', b, j) == Some(nit);
      } else if k in keys {
        var i :| At(t, BucketOf(hash(k), |t.buckets|), i) == Some(keys[k]);
        assert Relinked(heap, heap', links, keys[k]);
        assert At(t', BucketOf(hash(k), |t.buckets|), i) == Some(keys[k]);
      }
    }
  }

  /** Case four: the key is nowhere and every slot is taken. */
  lemma PushFrontOk(heap: Heap, heap': Heap, t: Table, keys: map<Bytes, Addr>, hash: Hash, b: int, nit: Addr)
    requires TableOk(heap, t, keys, hash) && Insertable(heap, keys, hash, nit) && heap[nit].key !in keys
    requires b == BucketOf(heap[nit].hv, |t.buckets|) && ShapeOk(t, b) && At(t, b, LAST_SLOT).Some?
    requires forall a: Addr :: Relinked(heap, heap', map[nit := At(t, b, LAST_SLOT)], a)
    ensures TableOk(heap', PushFront(t, b, nit, heap[nit].hv), keys[heap[nit].key := nit], hash)
  {
    var links := map[nit := At(t, b, LAST_SLOT)];
    var t', keys' := PushFront(t, b, nit, heap[nit].hv), keys[heap[nit].key := nit];
    PushFrontPositions(t, b, nit, heap[nit].hv);
    forall c: int ensures ShapeOk(t', c) { assert ShapeOk(t, c); }
    assert Relinked(heap, heap', links, nit);
    forall c: int, i: int ensures PositionOk(heap', t', keys', hash, c, i) {
      assert At(t', c, i) == PushedAt(t, b, nit, c, i) && At(t', c, i + 1) == PushedAt(t, b, nit, c, i + 1);
      var i0 := if c == b && i > LAST_SLOT then i - 1 else i;
      assert PositionOk(heap, t, keys, hash, c, i0);
      if At(t, c, i0).Some? {
        MemberKept(heap, t, keys, hash, c, i0, nit);
        assert Relinked(heap, heap', links, At(t, c, i0).value);
        assert i != LAST_SLOT || c != b ==> (i < BUCKET_NITEMS ==> HashAt(t', c, i) == HashAt(t, c, i));
      }
    }
    forall c: int, i: int, k: int ensures Distinct(t', c, i, k) {
      var i0 := if c == b && i > LAST_SLOT then i - 1 else i;
      var k0 := if c == b && k > LAST_SLOT then k - 1 else k;
      assert At(t', c, i) == PushedAt(t, b, nit, c, i) && At(t', c, k) == PushedAt(t, b, nit, c, k);
      assert Distinct(t, c, i0, k0);
      if At(t, c, i0).Some? { MemberKept(heap, t, keys, hash, c, i0, nit); }
      if At(t, c, k0).Some? { MemberKept(heap, t, keys, hash, c, k0, nit); }
    }
    forall k: Bytes ensures KeyOk(heap', t', keys', hash, k) {
      assert KeyOk(heap, t, keys, hash, k);
      if k == heap[nit].key {
        assert At(t', b, LAST_SLOT) == Some(nit);
      } else if k in keys {
        var c := BucketOf(hash(k), |t.buckets|);
        var i :| At(t, c, i) == Some(keys[k]);
        assert Relinked(heap, heap', links, keys[k]);
        var i1 := if c == b && i >= LAST_SLOT then i + 1 else i;
        assert At(t', c, i1) == PushedAt(t, b, nit, c, i1) == Some(keys[k]);
      }
    }
  }
}
