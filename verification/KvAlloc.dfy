/**
 Segments changing hands: taken from the free list or created, appended to a core's log, kept in
 reserve, and unlinked from a log when they are recycled.
 */
module KvAlloc {
  import opened Basics
  import opened KvTable
  import opened KvLog
  import opened KvInvariant

  /** Segment headers with their owners, allocators, lists, and the count of segments created so far. */
  datatype Alloc = Alloc(m: Memory, ias: seq<Allocator>, pools: Pools, freeHead: Option<SegId>, alloced: nat)

  ghost predicate Ok(g: Alloc) {
    AllocOk(g.m, g.ias, g.pools, g.freeHead, g.alloced)
  }

  /** A header as segment_alloc leaves it. */
  function FreshHeader(size: nat, next: Option<SegId>): Segment {
    Segment(size, 0, 0, false, false, 0, next)
  }

  // ---- segment_alloc ----

  /** Segment h comes into a thread's hands, empty. */
  function Granted(m: Memory, h: SegId, size: nat, next: Option<SegId>): Memory {
    Memory(m.segs[h := FreshHeader(size, next)], m.logs[h := []], m.owner[h := Loose])
  }

  function TakeFree(g: Alloc): Alloc
    requires g.freeHead.Some? && g.freeHead.value in g.m.segs && g.pools.free != []
  {
    var h := g.freeHead.value;
    g.(m := Granted(g.m, h, g.m.segs[h].size, g.m.segs[h].next),
       pools := g.pools.(free := g.pools.free[1..]),
       freeHead := g.m.segs[h].next)
  }

  lemma TailLinks(segs: map<SegId, Segment>, l: seq<SegId>)
    requires l != [] && forall i: int :: LinkAt(segs, l, i)
    ensures forall i: int :: LinkAt(segs, l[1..], i)
    ensures l[0] in segs && segs[l[0]].next == if |l| == 1 then None else Some(l[1])
  {
    assert LinkAt(segs, l, 0);
    forall i: int ensures LinkAt(segs, l[1..], i) { assert LinkAt(segs, l, i + 1); }
  }

  ghost predicate KeptHeader(segs: map<SegId, Segment>, segs': map<SegId, Segment>, s: SegId) {
    s in segs ==> s in segs' && segs'[s].next == segs[s].next && segs'[s].inactive == segs[s].inactive
  }

  /** Links and flags of a list survive changes to headers that are not on it. */
  lemma OffList(segs: map<SegId, Segment>, segs': map<SegId, Segment>, l: seq<SegId>)
    requires forall s :: s in l ==> KeptHeader(segs, segs', s)
    requires forall i: int :: LinkAt(segs, l, i)
    ensures forall i: int :: LinkAt(segs', l, i)
    ensures (forall i: int :: FlagAt(segs, l, i)) ==> forall i: int :: FlagAt(segs', l, i)
  {
    forall i: int ensures LinkAt(segs', l, i) && (FlagAt(segs, l, i) ==> FlagAt(segs', l, i)) {
      assert LinkAt(segs, l, i);
      if 0 <= i < |l| { assert l[i] in l && KeptHeader(segs, segs', l[i]); }
    }
  }

  lemma TakeFreeOk(g: Alloc)
    requires Ok(g) && g.freeHead.Some?
    ensures g.pools.free != [] && g.freeHead.value == g.pools.free[0] && g.freeHead.value in g.m.segs
    ensures g.freeHead.value in g.m.owner && g.m.owner[g.freeHead.value] == Free
    ensures Ok(TakeFree(g))
  {
    var h := g.freeHead.value;
    TailLinks(g.m.segs, g.pools.free);
    assert ListedOk(g.m, g.ias, g.pools, h);
    var g' := TakeFree(g);
    PopNoDup(g.pools.free);
    OffList(g.m.segs, g'.m.segs, g'.pools.free);
    forall c: int ensures ChainOk(g'.m, g'.ias, g'.pools, c) {
      assert ChainOk(g.m, g.ias, g.pools, c);
      if 0 <= c < |g.ias| { OffList(g.m.segs, g'.m.segs, g.pools.chains[c]); }
    }
    forall s: SegId ensures OwnerOk(g'.m, g'.ias, g'.pools, s) && ListedOk(g'.m, g'.ias, g'.pools, s) {
      assert OwnerOk(g.m, g.ias, g.pools, s) && ListedOk(g.m, g.ias, g.pools, s);
    }
  }

  lemma PopNoDup(l: seq<SegId>)
    requires NoDup(l) && l != []
    ensures NoDup(l[1..]) && forall s :: s in l[1..] <==> s in l && s != l[0]
  {
    assert l == [l[0]] + l[1..];
  }

  function Create(g: Alloc, size: nat): Alloc {
    g.(m := Granted(g.m, g.alloced, size, None),
       alloced := g.alloced + 1)
  }

  lemma CreateOk(g: Alloc, size: nat)
    requires Ok(g)
    ensures g.alloced !in g.m.segs && Ok(Create(g, size))
  {
    var g', h := Create(g, size), g.alloced;
    assert OwnerOk(g.m, g.ias, g.pools, h) && ListedOk(g.m, g.ias, g.pools, h);
    OffList(g.m.segs, g'.m.segs, g.pools.free);
    forall c: int ensures ChainOk(g'.m, g'.ias, g'.pools, c) {
      assert ChainOk(g.m, g.ias, g.pools, c);
      if 0 <= c < |g.ias| { OffList(g.m.segs, g'.m.segs, g.pools.chains[c]); }
    }
    forall s: SegId ensures OwnerOk(g'.m, g'.ias, g'.pools, s) && ListedOk(g'.m, g'.ias, g'.pools, s) {
      assert OwnerOk(g.m, g.ias, g.pools, s) && ListedOk(g.m, g.ias, g.pools, s);
    }
  }

  /** A loose segment is empty, whatever is in the heap. */
  lemma GrantedMemory(heap: Heap, m: Memory, h: SegId, size: nat, next: Option<SegId>)
    requires MemoryOk(heap, m) && size > 0 && (h in m.owner ==> m.owner[h] == Free) && (h in m.segs ==> h in m.owner)
    ensures MemoryOk(heap, Granted(m, h, size, next))
  {
    var seg, m' := FreshHeader(size, next), Granted(m, h, size, next);
    forall s: SegId ensures SegOk(heap, m', s) {
      assert SegOk(heap, m, s);
      if s == h { forall i: int ensures TileOk(heap, seg, h, [], i) { } }
    }
    forall a: Addr ensures AddrOk(heap, m', a) { assert AddrOk(heap, m, a); }
  }

  // ---- ialloc_alloc: a new current segment ----

  function Append(g: Alloc, c: int, h: SegId): Alloc
    requires 0 <= c < |g.ias| == |g.pools.chains| && h in g.m.segs && g.ias[c].cur in g.m.segs
  {
    var last := g.ias[c].cur;
    var segs1 := g.m.segs[last := g.m.segs[last].(next := Some(h), inactive := true)];
    g.(m := g.m.(segs := segs1[h := segs1[h].(next := None)], owner := g.m.owner[h := InChain(c)]),
       ias := g.ias[c := g.ias[c].(cur := h)],
       pools := g.pools.(chains := g.pools.chains[c := g.pools.chains[c] + [h]]))
  }

  lemma AppendOk(g: Alloc, c: int, h: SegId)
    requires Ok(g) && 0 <= c < |g.ias| && h in g.m.owner && g.m.owner[h] == Loose && h in g.m.segs && !g.m.segs[h].inactive
    ensures g.ias[c].cur in g.m.segs && g.ias[c].cur in g.m.owner && g.m.owner[g.ias[c].cur] == InChain(c) && g.ias[c].cur != h
    ensures Ok(Append(g, c, h))
  {
    var l := g.pools.chains[c];
    assert ChainOk(g.m, g.ias, g.pools, c) && LinkAt(g.m.segs, l, |l| - 1);
    var last := g.ias[c].cur;
    assert last in l && ListedOk(g.m, g.ias, g.pools, last) && ListedOk(g.m, g.ias, g.pools, h);
    var g' := Append(g, c, h);
    forall s | s in g.pools.free ensures s != last && s != h { assert ListedOk(g.m, g.ias, g.pools, s); }
    OffList(g.m.segs, g'.m.segs, g.pools.free);
    forall d: int ensures ChainOk(g'.m, g'.ias, g'.pools, d) {
      assert ChainOk(g.m, g.ias, g.pools, d);
      if d == c {
        AppendedLinks(g.m.segs, g'.m.segs, l, h);
      } else if 0 <= d < |g.ias| {
        forall s | s in g.pools.chains[d] ensures s != last && s != h { assert ListedOk(g.m, g.ias, g.pools, s); }
        OffList(g.m.segs, g'.m.segs, g.pools.chains[d]);
      }
    }
    forall s: SegId ensures OwnerOk(g'.m, g'.ias, g'.pools, s) && ListedOk(g'.m, g'.ias, g'.pools, s) {
      assert OwnerOk(g.m, g.ias, g.pools, s) && ListedOk(g.m, g.ias, g.pools, s);
      assert s in l + [h] <==> s in l || s == h;
    }
  }

  lemma AppendedLinks(segs: map<SegId, Segment>, segs': map<SegId, Segment>, l: seq<SegId>, h: SegId)
    requires l != [] && NoDup(l) && h !in l && h in segs && !segs[h].inactive
    requires forall i: int :: LinkAt(segs, l, i) && FlagAt(segs, l, i)
    requires var last := l[|l| - 1];
             && last in segs && segs'.Keys == segs.Keys
             && segs'[last].next == Some(h) && segs'[last].inactive && segs'[h].next == None && !segs'[h].inactive
             && forall s :: s in segs && s != last && s != h ==> segs'[s] == segs[s]
    ensures NoDup(l + [h]) && forall i: int :: LinkAt(segs', l + [h], i) && FlagAt(segs', l + [h], i)
  {
    forall i: int ensures LinkAt(segs', l + [h], i) && FlagAt(segs', l + [h], i) {
      assert LinkAt(segs, l, i) && FlagAt(segs, l, i);
      if 0 <= i < |l| - 1 { assert l[i] != l[|l| - 1]; }
    }
  }

  /** The old current segment is full or closed; the new one is empty. */
  lemma AppendMemory(heap: Heap, g: Alloc, c: int, h: SegId)
    requires MemoryOk(heap, g.m) && 0 <= c < |g.ias| == |g.pools.chains| && h in g.m.segs && g.ias[c].cur in g.m.segs
    requires h in g.m.owner && g.m.owner[h] == Loose && g.ias[c].cur != h
    requires g.m.segs[g.ias[c].cur].offset == g.m.segs[g.ias[c].cur].size
    requires g.ias[c].cur in g.m.owner && g.m.owner[g.ias[c].cur].InChain?
    ensures MemoryOk(heap, Append(g, c, h).m)
  {
    var m' := Append(g, c, h).m;
    forall s: SegId ensures SegOk(heap, m', s) {
      assert SegOk(heap, g.m, s);
      if s in g.m.segs && g.m.owner[s] != Free {
        forall i: int ensures TileOk(heap, m'.segs[s], s, g.m.logs[s], i) { assert TileOk(heap, g.m.segs[s], s, g.m.logs[s], i); }
      }
    }
    forall a: Addr ensures AddrOk(heap, m', a) { assert AddrOk(heap, g.m, a); }
  }

  // ---- the reserve ----

  function Reserve(g: Alloc, c: int, h: Option<SegId>): Alloc
    requires 0 <= c < |g.ias|
  {
    var freed := g.ias[c].reserved;
    var owner1 := if freed.Some? then g.m.owner[freed.value := Loose] else g.m.owner;
    g.(m := g.m.(owner := if h.Some? then owner1[h.value := InReserve(c)] else owner1),
       ias := g.ias[c := g.ias[c].(reserved := h)])
  }

  /** The reserved segment comes into hand, or a loose one becomes the reserve. */
  lemma ReserveOk(heap: Heap, g: Alloc, c: int, h: Option<SegId>)
    requires Ok(g) && MemoryOk(heap, g.m) && 0 <= c < |g.ias|
    requires h.Some? ==> g.ias[c].reserved == None && h.value in g.m.owner && g.m.owner[h.value] == Loose
    ensures Ok(Reserve(g, c, h)) && MemoryOk(heap, Reserve(g, c, h).m)
    ensures g.ias[c].reserved.Some? ==>
              var r := g.ias[c].reserved.value;
              r in g.m.segs && r in g.m.owner && !g.m.segs[r].inactive && g.m.segs[r].offset == 0 && g.m.segs[r].filler == 0
  {
    var g', r := Reserve(g, c, h), g.ias[c].reserved;
    if r.Some? { assert ListedOk(g.m, g.ias, g.pools, r.value) && OwnerOk(g.m, g.ias, g.pools, r.value) && SegOk(heap, g.m, r.value); }
    if h.Some? { assert OwnerOk(g.m, g.ias, g.pools, h.value) && ListedOk(g.m, g.ias, g.pools, h.value); }
    forall d: int ensures ChainOk(g'.m, g'.ias, g'.pools, d) { assert ChainOk(g.m, g.ias, g.pools, d); }
    forall s: SegId ensures OwnerOk(g'.m, g'.ias, g'.pools, s) && ListedOk(g'.m, g'.ias, g'.pools, s) {
      assert OwnerOk(g.m, g.ias, g.pools, s) && ListedOk(g.m, g.ias, g.pools, s);
    }
    forall s: SegId ensures SegOk(heap, g'.m, s) { assert SegOk(heap, g.m, s); }
    forall a: Addr ensures AddrOk(heap, g'.m, a) { assert AddrOk(heap, g.m, a) && SegOk(heap, g.m, a.seg); }
  }

  // ---- ialloc_maintenance: unlinking a dead segment ----

  predicate Present(segs: map<SegId, Segment>, l: seq<SegId>) {
    forall k :: 0 <= k < |l| ==> l[k] in segs
  }

  /** The i-th segment of core c's log goes to the free list. */
  function Unlink(g: Alloc, c: int, i: int): Alloc
    requires 0 <= c < |g.ias| == |g.pools.chains| && 0 <= i < |g.pools.chains[c]| - 1
    requires Present(g.m.segs, g.pools.chains[c])
  {
    var l := g.pools.chains[c];
    var s := l[i];
    var segs1 := if i == 0 then g.m.segs else g.m.segs[l[i - 1] := g.m.segs[l[i - 1]].(next := Some(l[i + 1]))];
    Alloc(Recycled(g.m.(segs := segs1), s, g.freeHead),
          g.ias[c := g.ias[c].(oldest := if i == 0 then l[1] else g.ias[c].oldest)],
          Pools(g.pools.chains[c := l[..i] + l[i + 1..]], [s] + g.pools.free),
          Some(s), g.alloced)
  }

  lemma UnlinkedList(segs: map<SegId, Segment>, segs': map<SegId, Segment>, l: seq<SegId>, i: int)
    requires NoDup(l) && 0 <= i < |l| - 1 && forall k: int :: LinkAt(segs, l, k) && FlagAt(segs, l, k)
    requires forall s :: s in l && s != l[i] && (i == 0 || s != l[i - 1]) ==> KeptHeader(segs, segs', s)
    requires i > 0 ==> l[i - 1] in segs && l[i - 1] in segs' && segs'[l[i - 1]] == segs[l[i - 1]].(next := Some(l[i + 1]))
    ensures var l' := l[..i] + l[i + 1..];
            NoDup(l') && forall k: int :: LinkAt(segs', l', k) && FlagAt(segs', l', k)
    ensures forall s :: s in l[..i] + l[i + 1..] <==> s in l && s != l[i]
  {
    var l' := l[..i] + l[i + 1..];
    WithoutFacts(l, l[i]);
    WithoutAt(l, i);
    hide Without;
    forall k: int ensures LinkAt(segs', l', k) && FlagAt(segs', l', k) {
      var k0 := if k < i then k else k + 1;
      assert LinkAt(segs, l, k0) && FlagAt(segs, l, k0);
      if 0 <= k < |l'| {
        assert l'[k] == l[k0] && l[k0] in l;
        if i == 0 || k != i - 1 { assert KeptHeader(segs, segs', l[k0]); }
      }
    }
  }

  lemma UnlinkOk(g: Alloc, c: int, i: int)
    requires Ok(g) && 0 <= c < |g.ias| && 0 <= i < |g.pools.chains[c]| - 1
    ensures Present(g.m.segs, g.pools.chains[c])
    ensures Ok(Unlink(g, c, i))
  {
    var l := g.pools.chains[c];
    assert ChainOk(g.m, g.ias, g.pools, c);
    forall k | 0 <= k < |l| ensures l[k] in g.m.segs { assert LinkAt(g.m.segs, l, k); }
    var s, g' := l[i], Unlink(g, c, i);
    forall x | x in l ensures x in g.m.owner && g.m.owner[x] == InChain(c) { assert ListedOk(g.m, g.ias, g.pools, x); }
    UnlinkedList(g.m.segs, g'.m.segs, l, i);
    UnlinkFree(g, c, i);
    forall d: int ensures ChainOk(g'.m, g'.ias, g'.pools, d) {
      assert ChainOk(g.m, g.ias, g.pools, d);
      if 0 <= d < |g.ias| && d != c {
        forall x | x in g.pools.chains[d] ensures KeptHeader(g.m.segs, g'.m.segs, x) { assert ListedOk(g.m, g.ias, g.pools, x); }
        OffList(g.m.segs, g'.m.segs, g.pools.chains[d]);
      }
    }
    forall x: SegId ensures OwnerOk(g'.m, g'.ias, g'.pools, x) && ListedOk(g'.m, g'.ias, g'.pools, x) {
      assert OwnerOk(g.m, g.ias, g.pools, x) && ListedOk(g.m, g.ias, g.pools, x);
    }
  }

  lemma UnlinkFree(g: Alloc, c: int, i: int)
    requires Ok(g) && 0 <= c < |g.ias| && 0 <= i < |g.pools.chains[c]| - 1
    requires Present(g.m.segs, g.pools.chains[c])
    ensures var g' := Unlink(g, c, i);
            NoDup(g'.pools.free) && forall k: int :: LinkAt(g'.m.segs, g'.pools.free, k)
  {
    var l, g' := g.pools.chains[c], Unlink(g, c, i);
    assert ListedOk(g.m, g.ias, g.pools, l[i]);
    ConsFacts(l[i], g.pools.free);
    forall x | x in g.pools.free ensures KeptHeader(g.m.segs, g'.m.segs, x) {
      assert ListedOk(g.m, g.ias, g.pools, x);
      if i > 0 { assert ListedOk(g.m, g.ias, g.pools, l[i - 1]); }
    }
    OffList(g.m.segs, g'.m.segs, g.pools.free);
    forall k: int ensures LinkAt(g'.m.segs, g'.pools.free, k) { assert LinkAt(g'.m.segs, g.pools.free, k - 1); }
  }
}
