/**
 The index from virtual addresses to pages: a chained hash table with a power-of-two number of
 buckets that doubles when a chain grows too long, and a list of the items in insertion order.
 */
module PageIndex {
  import opened Basics
  import opened Bits

  /** Key and hash value stored with an item. */
  datatype Handle = Handle(va: Address, hashv: nat)

  /** One bucket: its chain, most recent first, the chain's length, and its expansion multiplier. */
  datatype Bucket = Bucket(chain: seq<PageId>, count: nat, expandMult: nat)

  const INITIAL_LOG2: nat := 21
  const INITIAL_BUCKETS: nat := 2097152
  const CAPACITY_THRESH: nat := 10

  const EMPTY: Bucket := Bucket([], 0, 0)

  // ---- which bucket ----

  /** The bucket of a hash value, as the code computes it. */
  function ToBucket(hashv: nat, n: nat): nat
    requires n > 0
  {
    And(hashv, n - 1)
  }

  /** The mask gives the remainder, and a bucket that exists. */
  lemma ToBucketIs(hashv: nat, k: nat)
    ensures ToBucket(hashv, Pow2(k)) == Rem(hashv, Pow2(k)) < Pow2(k)
  {
    AndMask(hashv, k);
  }

  lemma RemDouble(h: nat, n: nat)
    requires n > 0
    ensures Rem(h, 2 * n) == Rem(h, n) || Rem(h, 2 * n) == Rem(h, n) + n
  {
    var q, r := h / (2 * n), h % (2 * n);
    assert h == (2 * n) * q + r;
    TwiceTimes(n, q);
    if r < n {
      ModUnique(h, n, 2 * q, r);
    } else {
      ModUnique(h, n, 2 * q + 1, r - n);
    }
  }

  lemma TwiceTimes(n: int, q: int)
    ensures (2 * n) * q == n * (2 * q) && n * (2 * q + 1) == n * (2 * q) + n
  {
  }

  /** Doubling the table splits bucket b into b and b + n. */
  lemma DoublingSplits(hashv: nat, k: nat)
    ensures ToBucket(hashv, Pow2(k + 1)) == ToBucket(hashv, Pow2(k)) || ToBucket(hashv, Pow2(k + 1)) == ToBucket(hashv, Pow2(k)) + Pow2(k)
  {
    ToBucketIs(hashv, k);
    ToBucketIs(hashv, k + 1);
    RemDouble(hashv, Pow2(k));
    hide Rem, ToBucket;
  }

  function Quo(n: nat, b: nat): nat
    requires b > 0
  {
    n / b
  }

  /** ideal_chain_maxlen by shift and mask, for n items and 2^k buckets. */
  function IdealChain(n: nat, k: nat): nat {
    Quo(n, Pow2(k)) + if And(n, Pow2(k) - 1) != 0 then 1 else 0
  }

  lemma Ceil(n: nat, b: nat)
    requires b > 0
    ensures Quo(n + b - 1, b) == Quo(n, b) + if Rem(n, b) != 0 then 1 else 0
  {
    var q, r := n / b, n % b;
    assert n == b * q + r;
    if r == 0 {
      ModUnique(n + b - 1, b, q, b - 1);
    } else {
      assert b * (q + 1) == b * q + b;
      ModUnique(n + b - 1, b, q + 1, r - 1);
    }
  }

  /** It is the quotient rounded up. */
  lemma IdealChainIsCeil(n: nat, k: nat)
    ensures IdealChain(n, k) == Quo(n + Pow2(k) - 1, Pow2(k))
  {
    AndMask(n, k);
    Ceil(n, Pow2(k));
    hide Rem, Quo, And;
  }

  lemma IdealPositive(n: nat, k: nat)
    requires n > 0
    ensures IdealChain(n, k) > 0
  {
    hide And, Rem, Quo;
    AndMask(n, k);
    PositiveParts(n, Pow2(k));
  }

  lemma PositiveParts(n: nat, b: nat)
    requires n > 0 && b > 0
    ensures Quo(n, b) > 0 || Rem(n, b) > 0
  {
    if n / b == 0 { ModUnique(n, b, 0, n % b); }
  }

  // ---- buckets ----

  ghost predicate Hashed(handles: map<PageId, Handle>, n: nat, p: PageId, b: int) {
    p in handles && n > 0 && ToBucket(handles[p].hashv, n) == b
  }

  /** Bucket b holds, once each, exactly the members that hash to it, and its count says how many. */
  ghost predicate BucketOk(buckets: seq<Bucket>, members: set<PageId>, handles: map<PageId, Handle>, b: int) {
    0 <= b < |buckets| ==>
      && buckets[b].count == |buckets[b].chain| && NoDup(buckets[b].chain)
      && forall p :: p in buckets[b].chain <==> p in members && Hashed(handles, |buckets|, p, b)
  }

  ghost predicate BucketsOk(buckets: seq<Bucket>, members: set<PageId>, handles: map<PageId, Handle>) {
    forall b: int :: BucketOk(buckets, members, handles, b)
  }

  /** HASH_ADD_TO_BKT: the item goes to the head of the chain. */
  function Push(bkt: Bucket, p: PageId): Bucket {
    bkt.(chain := [p] + bkt.chain, count := bkt.count + 1)
  }

  lemma PushOk(buckets: seq<Bucket>, members: set<PageId>, handles: map<PageId, Handle>, p: PageId, b: int, bkt: Bucket)
    requires BucketsOk(buckets, members, handles) && p !in members && 0 <= b < |buckets| && Hashed(handles, |buckets|, p, b)
    requires bkt.chain == [p] + buckets[b].chain && bkt.count == buckets[b].count + 1
    ensures BucketsOk(buckets[b := bkt], members + {p}, handles)
  {
    var buckets' := buckets[b := bkt];
    forall c: int ensures BucketOk(buckets', members + {p}, handles, c) {
      assert BucketOk(buckets, members, handles, c);
      if c == b { ConsFacts(p, buckets[b].chain); }
    }
  }

  /** HASH_DEL_IN_BKT */
  function Pull(bkt: Bucket, p: PageId): Bucket
    requires bkt.count > 0
  {
    bkt.(chain := Without(bkt.chain, p), count := bkt.count - 1)
  }

  lemma PullOk(buckets: seq<Bucket>, members: set<PageId>, handles: map<PageId, Handle>, p: PageId, b: int)
    requires BucketsOk(buckets, members, handles) && p in members && 0 <= b < |buckets| && Hashed(handles, |buckets|, p, b)
    ensures buckets[b].count > 0 && BucketsOk(buckets[b := Pull(buckets[b], p)], members - {p}, handles)
  {
    assert BucketOk(buckets, members, handles, b);
    WithoutFacts(buckets[b].chain, p);
    var buckets' := buckets[b := Pull(buckets[b], p)];
    hide Without;
    forall c: int ensures BucketOk(buckets', members - {p}, handles, c) { assert BucketOk(buckets, members, handles, c); }
  }

  /** The chain has reached the length at which the table is to grow. */
  predicate Overfull(bkt: Bucket) {
    bkt.count >= (bkt.expandMult + 1) * CAPACITY_THRESH
  }

  /**
   The multiplier of an expanded bucket: none up to the ideal length; one, just above it; beyond that the
   length over the ideal, rounded up, except that it is one less throughout if the ideal is one.
   */
  ghost predicate MultOk(bkt: Bucket, ideal: nat) {
    var c, m := bkt.count, bkt.expandMult;
    if c <= ideal then m == 0
    else if ideal == 1 then m == c - 1
    else if c == ideal + 1 then m == 1
    else (m - 1) * ideal < c <= m * ideal
  }

  ghost predicate MultsOk(buckets: seq<Bucket>, ideal: nat) {
    forall b :: 0 <= b < |buckets| ==> MultOk(buckets[b], ideal)
  }

  lemma MovedMult(bkt: Bucket, p: PageId, ideal: nat)
    requires MultOk(bkt, ideal) && ideal > 0
    ensures MultOk(Moved(bkt, p, ideal), ideal)
  {
    var m := bkt.expandMult;
    assert (m + 1) * ideal == m * ideal + ideal && (m - 1) * ideal == m * ideal - ideal;
  }

  // ---- the counts ----

  function SumCounts(buckets: seq<Bucket>): nat {
    if buckets == [] then 0 else SumCounts(buckets[..|buckets| - 1]) + buckets[|buckets| - 1].count
  }

  /** Members that hash below n. */
  ghost function Below(members: set<PageId>, handles: map<PageId, Handle>, size: nat, n: nat): set<PageId>
    requires size > 0
  {
    set p | p in members && p in handles && ToBucket(handles[p].hashv, size) < n
  }

  lemma {:induction false} SumBelow(buckets: seq<Bucket>, members: set<PageId>, handles: map<PageId, Handle>, n: nat)
    requires BucketsOk(buckets, members, handles) && n <= |buckets| && |buckets| > 0
    ensures SumCounts(buckets[..n]) == |Below(members, handles, |buckets|, n)|
  {
    if n == 0 {
      assert buckets[..0] == [];
      var none := Below(members, handles, |buckets|, 0);
      assert forall p :: p !in none;
      assert none == {};
    } else {
      SumBelow(buckets, members, handles, n - 1);
      assert BucketOk(buckets, members, handles, n - 1);
      NoDupSize(buckets[n - 1].chain);
      assert buckets[..n][..n - 1] == buckets[..n - 1];
      var here, rest := Elems(buckets[n - 1].chain), Below(members, handles, |buckets|, n - 1);
      forall p ensures p in here <==> p in members && Hashed(handles, |buckets|, p, n - 1) { }
      assert here !! rest && Below(members, handles, |buckets|, n) == rest + here;
    }
  }

  /** The bucket counts add up to the number of items. */
  lemma CountsSum(buckets: seq<Bucket>, order: seq<PageId>, handles: map<PageId, Handle>, k: nat)
    requires BucketsOk(buckets, Elems(order), handles) && |buckets| == Pow2(k) && NoDup(order)
    requires forall p :: p in order ==> p in handles
    ensures SumCounts(buckets) == |order|
  {
    SumBelow(buckets, Elems(order), handles, |buckets|);
    forall p | p in order ensures ToBucket(handles[p].hashv, |buckets|) < |buckets| { ToBucketIs(handles[p].hashv, k); }
    var below := Below(Elems(order), handles, |buckets|, |buckets|);
    assert forall p :: p in below <==> p in Elems(order);
    assert below == Elems(order);
    assert buckets[..|buckets|] == buckets;
    NoDupSize(order);
  }

  // ---- how uneven the chains are ----

  function Excess(count: nat, ideal: nat): nat { if count > ideal then count - ideal else 0 }

  /** Items whose place in their chain is beyond the ideal length. */
  function SumExcess(buckets: seq<Bucket>, ideal: nat): nat {
    if buckets == [] then 0 else SumExcess(buckets[..|buckets| - 1], ideal) + Excess(buckets[|buckets| - 1].count, ideal)
  }

  lemma {:induction false} SumExcessUpdate(buckets: seq<Bucket>, ideal: nat, b: int, bkt: Bucket)
    requires 0 <= b < |buckets|
    ensures SumExcess(buckets[b := bkt], ideal) + Excess(buckets[b].count, ideal) == SumExcess(buckets, ideal) + Excess(bkt.count, ideal)
  {
    var n := |buckets| - 1;
    if b == n {
      assert buckets[b := bkt][..n] == buckets[..n];
    } else {
      SumExcessUpdate(buckets[..n], ideal, b, bkt);
      assert buckets[b := bkt][..n] == buckets[..n][b := bkt];
    }
  }

  lemma EmptyExcess(buckets: seq<Bucket>, ideal: nat)
    requires forall b :: 0 <= b < |buckets| ==> buckets[b].count == 0
    ensures SumExcess(buckets, ideal) == 0
  {
    if buckets != [] { EmptyExcess(buckets[..|buckets| - 1], ideal); }
  }

  // ---- the index ----

  /** Items carry their key's hash, and the map gives each item for its key. */
  ghost predicate ItemOk(order: seq<PageId>, handles: map<PageId, Handle>, view: map<Address, PageId>, hash: Address -> nat, p: PageId) {
    p in order ==> p in handles && handles[p].hashv == hash(handles[p].va) && handles[p].va in view && view[handles[p].va] == p
  }

  ghost predicate KeyOk(order: seq<PageId>, handles: map<PageId, Handle>, view: map<Address, PageId>, va: Address) {
    va in view ==> view[va] in order && view[va] in handles && handles[view[va]].va == va
  }

  /** The insertion-order list holds each item once, and the map stands for exactly those items. */
  ghost predicate ListOk(order: seq<PageId>, handles: map<PageId, Handle>, view: map<Address, PageId>, hash: Address -> nat) {
    && NoDup(order)
    && (forall p: PageId :: ItemOk(order, handles, view, hash, p))
    && (forall va: Address :: KeyOk(order, handles, view, va))
  }

  class Index {
    const hash: Address -> nat

    var made: bool
    var buckets: seq<Bucket>
    var log2: nat
    var numItems: nat
    var order: seq<PageId>
    var handles: map<PageId, Handle>
    var idealChain: nat
    var nonideal: nat
    var ineffExpands: nat
    var noexpand: bool

    ghost var view: map<Address, PageId>

    ghost predicate Valid()
      reads this
    {
      && ListOk(order, handles, view, hash)
      && (made <==> order != [])
      && (made ==> |buckets| == Pow2(log2) && numItems == |order| && BucketsOk(buckets, Elems(order), handles))
    }

    constructor (hash: Address -> nat)
      ensures Valid() && view == map[] && this.hash == hash
    {
      this.hash := hash;
      made, buckets, log2, numItems, order, handles, view := false, [], 0, 0, [], map[], map[];
      idealChain, nonideal, ineffExpands, noexpand := 0, 0, 0, false;
    }

    /** HASH_FIND: one chain is searched. */
    method Find(va: Address) returns (r: Option<PageId>)
      requires Valid()
      ensures r == if va in view then Some(view[va]) else None
    {
      assert KeyOk(order, handles, view, va);
      if !made {
        return None;
      }
      var hashv := hash(va);
      var b := ToBucket(hashv, |buckets|);
      ToBucketIs(hashv, log2);
      assert BucketOk(buckets, Elems(order), handles, b);
      var chain := buckets[b].chain;
      assert va in view ==> ItemOk(order, handles, view, hash, view[va]) && view[va] in chain;
      for i := 0 to |chain|
        invariant forall j :: 0 <= j < i ==> chain[j] in handles && handles[chain[j]].va != va
      {
        var p := chain[i];
        assert p in chain && ItemOk(order, handles, view, hash, p);
        if handles[p].hashv == hashv && handles[p].va == va {
          return Some(p);
        }
      }
      return None;
    }

    /** HASH_DELETE_HH: the item leaves list and bucket; deleting the only item frees the table. */
    method Delete(p: PageId)
      requires Valid() && p in order
      modifies this
      ensures Valid() && p in old(handles) && view == old(view) - {old(handles)[p].va}
      ensures order == Without(old(order), p) && handles == old(handles)
    {
      assert ItemOk(order, handles, view, hash, p);
      DeleteList(order, handles, view, hash, p);
      ghost var was := order;
      view := view - {handles[p].va};
      if |order| == 1 {
        made, buckets, order := false, [], Without(order, p);
      } else {
        var b := ToBucket(handles[p].hashv, |buckets|);
        ToBucketIs(handles[p].hashv, log2);
        PullOk(buckets, Elems(order), handles, p, b);
        order := Without(order, p);
        buckets := buckets[b := Pull(buckets[b], p)];
        numItems := numItems - 1;
        SameMembers(buckets, Elems(was) - {p}, Elems(order), handles);
      }
    }

    /** HASH_ADD, for a key that is not in the index. */
    method Add(p: PageId, va: Address)
      requires Valid() && p !in order && va !in view
      modifies this
      ensures Valid() && view == old(view)[va := p] && order == old(order) + [p]
      ensures handles == old(handles)[p := Handle(va, hash(va))]
      ensures old(made) ==>
                && old(buckets) != []
                && var bucket := old(buckets)[hash(va) % |old(buckets)|];
                   |buckets| == if !old(noexpand) && |bucket.chain| + 1 >= 10 * (bucket.expandMult + 1) then 2 * |old(buckets)| else |old(buckets)|
      ensures !old(made) ==> |buckets| == INITIAL_BUCKETS
    {
      AddList(order, handles, view, hash, p, va);
      if made {
        ToBucketIs(hash(va), log2);
        assert BucketOk(buckets, Elems(order), handles, ToBucket(hash(va), |buckets|));
      }
      hide ListOk, BucketsOk;
      if !made {
        MakeTable();
      }
      Insert(p, Handle(va, hash(va)));
      view := view[va := p];
      assert handles[p].hashv == hash(va);
      var b := ToBucket(handles[p].hashv, |buckets|);
      ToBucketIs(handles[p].hashv, log2);
      if Overfull(buckets[b]) && !noexpand {
        Expand();
      }
    }

    ghost predicate TableOk()
      reads this
    {
      made && |buckets| == Pow2(log2) && numItems == |order| && BucketsOk(buckets, Elems(order), handles)
    }

    /** HASH_MAKE_TABLE */
    method MakeTable()
      requires order == []
      modifies this`made, this`buckets, this`log2, this`numItems, this`idealChain, this`nonideal, this`ineffExpands, this`noexpand
      ensures TableOk() && buckets == seq(INITIAL_BUCKETS, _ => EMPTY) && !noexpand
    {
      hide BucketsOk, Pow2;
      made, log2, numItems := true, INITIAL_LOG2, 0;
      buckets := seq(INITIAL_BUCKETS, _ => EMPTY);
      idealChain, nonideal, ineffExpands, noexpand := 0, 0, 0, false;
      InitialSize();
      EmptyOk(buckets, handles);
      SameMembers(buckets, {}, Elems(order), handles);
    }

    /** HASH_APPEND_LIST, the item count, and the bucket the item goes to. */
    method Insert(p: PageId, h: Handle)
      requires TableOk() && p !in order
      modifies this`buckets, this`numItems, this`order, this`handles
      ensures TableOk() && order == old(order) + [p] && handles == old(handles)[p := h] && old(buckets) != []
      ensures var b := ToBucket(h.hashv, |old(buckets)|);
              b < |old(buckets)| && buckets == old(buckets)[b := Push(old(buckets)[b], p)]
    {
      hide BucketsOk;
      ghost var was := order;
      var b := ToBucket(h.hashv, |buckets|);
      ToBucketIs(h.hashv, log2);
      Rehandle(buckets, order, handles, p, h);
      handles := handles[p := h];
      PushOk(buckets, Elems(order), handles, p, b, Push(buckets[b], p));
      order := order + [p];
      numItems := numItems + 1;
      buckets := buckets[b := Push(buckets[b], p)];
      SameMembers(buckets, Elems(was) + {p}, Elems(order), handles);
    }

    /** HASH_EXPAND_BUCKETS: twice as many buckets, every item moved to the one its hash now selects. */
    method Expand()
      requires Valid() && made
      modifies this`buckets, this`log2, this`idealChain, this`nonideal, this`ineffExpands, this`noexpand
      ensures Valid() && |buckets| == 2 * |old(buckets)| && log2 == old(log2) + 1
      ensures idealChain == IdealChain(numItems, log2) && nonideal == SumExcess(buckets, idealChain) && MultsOk(buckets, idealChain)
      ensures ineffExpands == (if nonideal > numItems / 2 then old(ineffExpands) + 1 else 0)
      ensures noexpand == (old(noexpand) || ineffExpands > 1)
    {
      idealChain := IdealChain(numItems, log2 + 1);
      AllBelow(order, handles, view, hash, log2);
      IdealPositive(numItems, log2 + 1);
      hide ListOk, IdealChain;
      buckets, nonideal := Redistribute(buckets, Elems(order), handles, log2, idealChain);
      log2 := log2 + 1;
      ineffExpands := if nonideal > numItems / 2 then ineffExpands + 1 else 0;
      if ineffExpands > 1 {
        noexpand := true;
      }
    }

    /** The counts of all buckets add up to the number of items. */
    lemma CountsAddUp()
      requires Valid() && made
      ensures SumCounts(buckets) == numItems
    {
      forall p | p in order ensures p in handles { assert ItemOk(order, handles, view, hash, p); }
      CountsSum(buckets, order, handles, log2);
    }

    /** An item is in the bucket its hash selects, and in no other. */
    lemma OneBucket(p: PageId, b: int)
      requires Valid() && p in order && 0 <= b < |buckets|
      ensures p in handles && (p in buckets[b].chain <==> b == handles[p].hashv % |buckets|)
    {
      assert ItemOk(order, handles, view, hash, p) && BucketOk(buckets, Elems(order), handles, b);
      ToBucketIs(handles[p].hashv, log2);
    }
  }

  /** The loops of HASH_EXPAND_BUCKETS. */
  method Redistribute(buckets: seq<Bucket>, ghost members: set<PageId>, handles: map<PageId, Handle>, log2: nat, ideal: nat)
    returns (doubled: seq<Bucket>, nonideal: nat)
    requires |buckets| == Pow2(log2) && BucketsOk(buckets, members, handles)
    requires forall p :: p in members ==> BelowBucket(handles, |buckets|, p, |buckets|)
    requires ideal > 0
    ensures MultsOk(doubled, ideal)
    ensures |doubled| == Pow2(log2 + 1) && BucketsOk(doubled, members, handles) && nonideal == SumExcess(doubled, ideal)
  {
    hide BucketsOk, ToBucket, SumExcess, MultOk;
    var n := |buckets|;
    doubled := seq(2 * n, _ => EMPTY);
    ghost var moved: set<PageId> := {};
    EmptyOk(doubled, handles);
    EmptyExcess(doubled, ideal);
    EmptyMults(doubled, ideal);
    nonideal := 0;
    for i := 0 to n
      invariant |doubled| == 2 * n && BucketsOk(doubled, moved, handles)
      invariant forall p :: p in moved <==> p in members && BelowBucket(handles, n, p, i)
      invariant nonideal == SumExcess(doubled, ideal) && MultsOk(doubled, ideal)
    {
      BucketAt(buckets, members, handles, i);
      var chain := buckets[i].chain;
      ghost var before := moved;
      for j := 0 to |chain|
        invariant |doubled| == 2 * n && BucketsOk(doubled, moved, handles)
        invariant forall p :: p in moved <==> p in before || p in chain[..j]
        invariant nonideal == SumExcess(doubled, ideal) && MultsOk(doubled, ideal)
      {
        var p := chain[j];
        assert p in chain && p !in chain[..j] && Hashed(handles, n, p, i);
        var b := ToBucket(handles[p].hashv, 2 * n);
        ToBucketIs(handles[p].hashv, log2 + 1);
        var bkt := Moved(doubled[b], p, ideal);
        SumExcessUpdate(doubled, ideal, b, bkt);
        MovedMult(doubled[b], p, ideal);
        PushOk(doubled, moved, handles, p, b, bkt);
        if bkt.count > ideal {
          nonideal := nonideal + 1;
        }
        doubled := doubled[b := bkt];
        moved := moved + {p};
      }
      assert chain[..|chain|] == chain;
    }
    SameMembers(doubled, moved, members, handles);
  }

  lemma SameMembers(buckets: seq<Bucket>, members: set<PageId>, members': set<PageId>, handles: map<PageId, Handle>)
    requires BucketsOk(buckets, members, handles) && forall p :: p in members <==> p in members'
    ensures BucketsOk(buckets, members', handles)
  {
    forall b: int ensures BucketOk(buckets, members', handles, b) { assert BucketOk(buckets, members, handles, b); }
  }

  lemma EmptyMults(buckets: seq<Bucket>, ideal: nat)
    requires forall b :: 0 <= b < |buckets| ==> buckets[b] == EMPTY
    ensures MultsOk(buckets, ideal)
  {
  }

  lemma BucketAt(buckets: seq<Bucket>, members: set<PageId>, handles: map<PageId, Handle>, b: int)
    requires BucketsOk(buckets, members, handles)
    ensures BucketOk(buckets, members, handles, b)
  {
  }

  /** The bucket of an expansion after one more item. */
  function Moved(bkt: Bucket, p: PageId, ideal: nat): Bucket {
    var count := bkt.count + 1;
    Bucket([p] + bkt.chain, count,
           if count > ideal && count > bkt.expandMult * ideal then bkt.expandMult + 1 else bkt.expandMult)
  }

  ghost predicate BelowBucket(handles: map<PageId, Handle>, n: nat, p: PageId, i: int) {
    p in handles && n > 0 && ToBucket(handles[p].hashv, n) < i
  }

  lemma AllBelow(order: seq<PageId>, handles: map<PageId, Handle>, view: map<Address, PageId>, hash: Address -> nat, k: nat)
    requires ListOk(order, handles, view, hash)
    ensures forall p :: p in order ==> BelowBucket(handles, Pow2(k), p, Pow2(k))
  {
    forall p | p in order ensures BelowBucket(handles, Pow2(k), p, Pow2(k)) {
      assert ItemOk(order, handles, view, hash, p);
      ToBucketIs(handles[p].hashv, k);
    }
  }

  lemma InitialSize()
    ensures Pow2(INITIAL_LOG2) == INITIAL_BUCKETS
  {
    assert Pow2(5) == 32 && Pow2(10) == 1024 && Pow2(15) == 32768 && Pow2(20) == 1048576;
  }

  lemma EmptyOk(buckets: seq<Bucket>, handles: map<PageId, Handle>)
    requires forall b :: 0 <= b < |buckets| ==> buckets[b] == EMPTY
    ensures BucketsOk(buckets, {}, handles)
  {
  }

  /** A new item's handle concerns no bucket yet. */
  lemma Rehandle(buckets: seq<Bucket>, order: seq<PageId>, handles: map<PageId, Handle>, p: PageId, h: Handle)
    requires BucketsOk(buckets, Elems(order), handles) && p !in order
    ensures BucketsOk(buckets, Elems(order), handles[p := h])
  {
    var members, handles' := Elems(order), handles[p := h];
    forall b: int ensures BucketOk(buckets, members, handles', b) { assert BucketOk(buckets, Elems(order), handles, b); }
  }

  lemma AddList(order: seq<PageId>, handles: map<PageId, Handle>, view: map<Address, PageId>, hash: Address -> nat, p: PageId, va: Address)
    requires ListOk(order, handles, view, hash) && p !in order && va !in view
    ensures ListOk(order + [p], handles[p := Handle(va, hash(va))], view[va := p], hash)
  {
    var order', handles', view' := order + [p], handles[p := Handle(va, hash(va))], view[va := p];
    forall q: PageId ensures ItemOk(order', handles', view', hash, q) { assert ItemOk(order, handles, view, hash, q); }
    forall v: Address ensures KeyOk(order', handles', view', v) { assert KeyOk(order, handles, view, v); }
  }

  lemma DeleteList(order: seq<PageId>, handles: map<PageId, Handle>, view: map<Address, PageId>, hash: Address -> nat, p: PageId)
    requires ListOk(order, handles, view, hash) && p in order && p in handles
    ensures ListOk(Without(order, p), handles, view - {handles[p].va}, hash)
    ensures |Without(order, p)| == |order| - 1 && forall q :: q in Without(order, p) <==> q in order && q != p
  {
    WithoutFacts(order, p);
    var order', view' := Without(order, p), view - {handles[p].va};
    hide Without;
    forall q: PageId ensures ItemOk(order', handles, view', hash, q) { assert ItemOk(order, handles, view, hash, q) && ItemOk(order, handles, view, hash, p); }
    forall v: Address ensures KeyOk(order', handles, view', v) { assert KeyOk(order, handles, view, v) && ItemOk(order, handles, view, hash, p); }
  }

  // ---- add_page, remove_page and find_page ----

  method AddPage(ix: Index, p: PageId, va: Address)
    requires ix.Valid() && p !in ix.order && va !in ix.view
    modifies ix
    ensures ix.Valid() && ix.view == old(ix.view)[va := p]
  {
    var found := ix.Find(va);
    assert found == None;
    ix.Add(p, va);
  }

  /** As the unmap loop uses it: the page at va, if there is one, is removed. */
  method RemoveAt(ix: Index, va: Address)
    requires ix.Valid()
    modifies ix
    ensures ix.Valid() && ix.view == old(ix.view) - {va}
  {
    var found := ix.Find(va);
    assert KeyOk(ix.order, ix.handles, ix.view, va);
    if found.Some? {
      ix.Delete(found.value);
    }
  }

  // ---- every sequence of operations ----

  datatype Op = AddOp(page: PageId, va: Address) | RemoveOp(va: Address) | FindOp(va: Address)

  /** The reference: a finite map. */
  function Apply(view: map<Address, PageId>, op: Op): map<Address, PageId> {
    match op
    case AddOp(p, va) => view[va := p]
    case RemoveOp(va) => view - {va}
    case FindOp(_) => view
  }

  function ApplyAll(view: map<Address, PageId>, ops: seq<Op>): map<Address, PageId> {
    if ops == [] then view else Apply(ApplyAll(view, ops[..|ops| - 1]), ops[|ops| - 1])
  }

  /** A page is added only while neither it nor another page is in the index at that address. */
  predicate Legal(view: map<Address, PageId>, ops: seq<Op>) {
    forall i :: 0 <= i < |ops| && ops[i].AddOp? ==>
      ops[i].va !in ApplyAll(view, ops[..i]) && ops[i].page !in ApplyAll(view, ops[..i]).Values
  }

  function Answer(view: map<Address, PageId>, op: Op): Option<PageId> {
    if op.FindOp? && op.va in view then Some(view[op.va]) else None
  }

  method RunOne(ix: Index, op: Op) returns (answer: Option<PageId>)
    requires ix.Valid() && (op.AddOp? ==> op.va !in ix.view && op.page !in ix.view.Values)
    modifies ix
    ensures ix.Valid() && ix.view == Apply(old(ix.view), op) && answer == Answer(old(ix.view), op)
  {
    answer := None;
    match op {
      case AddOp(p, va) =>
        NotListed(ix, p);
        AddPage(ix, p, va);
      case RemoveOp(va) =>
        RemoveAt(ix, va);
      case FindOp(va) =>
        answer := ix.Find(va);
    }
  }

  /** Over every sequence of operations, expansions included, each lookup is answered as the map would. */
  method RunAll(ix: Index, ops: seq<Op>) returns (answers: seq<Option<PageId>>)
    requires ix.Valid() && Legal(ix.view, ops)
    modifies ix
    ensures ix.Valid() && ix.view == ApplyAll(old(ix.view), ops) && |answers| == |ops|
    ensures forall i :: 0 <= i < |ops| ==> answers[i] == Answer(ApplyAll(old(ix.view), ops[..i]), ops[i])
  {
    hide Index.Valid, Apply, Answer;
    ghost var view0 := ix.view;
    answers := [];
    for i := 0 to |ops|
      invariant ix.Valid() && ix.view == ApplyAll(view0, ops[..i]) && |answers| == i
      invariant forall j :: 0 <= j < i ==> answers[j] == Answer(ApplyAll(view0, ops[..j]), ops[j])
    {
      assert ops[..i + 1][..i] == ops[..i];
      var answer := RunOne(ix, ops[i]);
      answers := answers + [answer];
    }
    assert ops[..|ops|] == ops;
  }

  lemma NotListed(ix: Index, p: PageId)
    requires ix.Valid() && p !in ix.view.Values
    ensures p !in ix.order
  {
    assert ItemOk(ix.order, ix.handles, ix.view, ix.hash, p);
  }
}
