/**
 Two runs from an empty store that end badly: one leaves a walk dangling in a free segment, one loses it
 in a filler whose length does not fit.
 */
module KvBadRuns {
  import opened Basics
  import opened KvTable
  import opened KvLog
  import opened KvInvariant
  import opened KvCore
  import opened KvAlloc
  import opened KvWalk
  import opened KvIalloc
  import opened KvStore
  import opened KvRecycle
  import opened KvMaintenance
  import opened KvServer
  import opened KvRuns

  // ---- what is live ----

  /** An item is referenced exactly if some key maps to it or some thread or queue holds it. */
  lemma LiveIff(s: Core, hash: Hash, a: Addr)
    requires CoreOk(s, hash) && a in s.heap
    ensures s.heap[a].refcount > 0 <==> a in s.keys.Values || s.held[a] > 0
  {
    assert RefOk(s.heap, s.keys, s.held, a);
    if a in s.keys.Values {
      var k :| k in s.keys && s.keys[k] == a;
      assert KeyOk(s.heap, s.t, s.keys, hash, k);
    }
  }

  // ---- runs, one request at a time ----

  /** The requests of a run so far, their replies, and the states before, between and after them. */
  datatype Trail = Trail(reqs: seq<Request>, replies: seq<Reply>, states: seq<Snapshot>)

  /** The run began in an empty store of one core, has ended so, and has got to this state. */
  ghost predicate Ran(cfg: Settings, t: Trail, end: End, now: Snapshot) {
    && RunSpec(cfg, t.reqs, t.replies, end, t.states) && |t.replies| == |t.reqs| && t.states[|t.reqs|] == now
    && t.states[0].alloc == WithCore(NOTHING, cfg.segsize) && t.states[0].core.keys == map[] && t.states[0].core.held == multiset{}
  }

  lemma RanStart(cfg: Settings, now: Snapshot)
    requires now.alloc == WithCore(NOTHING, cfg.segsize) && now.core.keys == map[] && now.core.held == multiset{}
    ensures Ran(cfg, Trail([], [], [now]), Complete, now)
  {
  }

  lemma RanStep(cfg: Settings, t: Trail, pre: Snapshot, req: Request, end: End, reply: Reply, post: Snapshot)
    requires Ran(cfg, t, Complete, pre) && Served(cfg, pre, req, end, reply, post)
    ensures Ran(cfg, Trail(t.reqs + [req], t.replies + [reply], t.states + [post]), end, post)
  {
    hide Served;
  }

  /** One more request of the run. */
  method Step(st: KvStore, req: Request, ghost t: Trail) returns (end: End, reply: Reply, ghost t': Trail)
    requires Settled(st, multiset{}) && Allowed(req, |st.ias|, st.itemmax) && Ran(st.Cfg(), t, Complete, st.Now())
    modifies st
    ensures |st.ias| == |old(st.ias)| && (end == Complete ==> Settled(st, multiset{}))
    ensures Served(st.Cfg(), old(st.Now()), req, end, reply, st.Now()) && Ran(st.Cfg(), t', end, st.Now())
    ensures end == StaleWalk ==> req.Maintenance? && Dangling(st, req.core)
  {
    hide Settled, Served, Ran;
    ghost var pre := st.Now();
    end, reply := Serve(st, req, multiset{});
    t' := Trail(t.reqs + [req], t.replies + [reply], t.states + [st.Now()]);
    RanStep(st.Cfg(), t, pre, req, end, reply, st.Now());
  }

  /** One SET of the run. */
  method SetStep(st: KvStore, key: Bytes, value: Bytes, ghost t: Trail) returns (ok: bool, ghost t': Trail)
    requires Settled(st, multiset{}) && |st.ias| == 1 && ITEM_HEADER + |key| + |value| <= st.itemmax && Ran(st.Cfg(), t, Complete, st.Now())
    modifies st
    ensures |st.ias| == 1 && Settled(st, multiset{}) && Ran(st.Cfg(), t', Complete, st.Now())
    ensures SetSpec(st.Cfg(), old(st.Now()), st.Now(), 0, key, value, ok)
  {
    hide Settled, Ran, SetSpec;
    var end, reply;
    end, reply, t' := Step(st, SetKey(0, key, value), t);
    ok := reply.ok;
  }

  /** One maintenance call of the run. */
  method MaintainStep(st: KvStore, ghost t: Trail) returns (course: Course, ghost k: int, ghost t': Trail)
    requires Settled(st, multiset{}) && |st.ias| == 1 && Ran(st.Cfg(), t, Complete, st.Now())
    modifies st
    ensures |st.ias| == 1 && (course == OnTrack ==> Settled(st, multiset{}))
    ensures MaintainSpec(st.Cfg(), old(st.Now()), st.Now(), 0, course, k)
    ensures Ran(st.Cfg(), t', match course case OnTrack => Complete case Stale => StaleWalk case Astray => AstrayWalk, st.Now())
    ensures course == Stale ==> Dangling(st, 0)
  {
    hide Settled, Ran, MaintainSpec, Dangling;
    ghost var pre := st.Now();
    var end, reply;
    end, reply, t' := Step(st, Maintenance(0), t);
    course := CourseOf(end);
    k :| MaintainSpec(st.Cfg(), pre, st.Now(), 0, CourseOf(end), k);
  }

  // ---- segments of two items ----

  const UNIT: nat := 25

  function Offsets(k: nat): seq<int> { if k == 0 then [] else if k == 1 then [0] else [0, UNIT] }

  /** Segment s holds k items of 25 bytes out of two. */
  ghost predicate SegLaid(m: Memory, s: SegId, k: nat, closed: bool) {
    && s in m.segs && s in m.logs && k <= 2 && m.logs[s] == Offsets(k)
    && m.segs[s] == m.segs[s].(size := 2 * UNIT, offset := UNIT * k, filler := 0, inactive := closed)
  }

  /** One core whose log is the given chain, all full but the last, with n segments made and none free. */
  ghost predicate Laid(g: Alloc, chain: seq<SegId>, n: nat, fill: nat, cleaned: set<SegId>) {
    && |g.ias| == 1 && g.pools.chains == [chain] && chain != [] && g.ias[0].cur == chain[|chain| - 1] && g.ias[0].reserved.Some?
    && g.freeHead == None && g.alloced == n
    && (forall i :: 0 <= i < |chain| ==> SegLaid(g.m, chain[i], if i < |chain| - 1 then 2 else fill, i < |chain| - 1))
    && (forall s :: s in g.m.segs ==> (g.m.segs[s].cleaned <==> s in cleaned)) && (forall s :: s in cleaned ==> s in g.m.segs)
  }

  lemma FreedLaid(m: Memory, m': Memory, s: SegId, k: nat, closed: bool)
    requires SegLaid(m, s, k, closed) && OnlyFreed(m, m')
    ensures SegLaid(m', s, k, closed)
  {
    assert SameHeader(m, m', s);
  }

  lemma LaidFreed(g: Alloc, g': Alloc, chain: seq<SegId>, n: nat, fill: nat, cleaned: set<SegId>)
    requires Laid(g, chain, n, fill, cleaned) && OnlyFreed(g.m, g'.m) && g' == g.(m := g'.m)
    ensures Laid(g', chain, n, fill, cleaned)
  {
    forall i | 0 <= i < |chain| ensures SegLaid(g'.m, chain[i], if i < |chain| - 1 then 2 else fill, i < |chain| - 1) {
      FreedLaid(g.m, g'.m, chain[i], if i < |chain| - 1 then 2 else fill, i < |chain| - 1);
    }
    forall s | s in g'.m.segs ensures g'.m.segs[s].cleaned <==> s in cleaned { assert SameHeader(g.m, g'.m, s); }
  }

  lemma ChainApart(g: Alloc, chain: seq<SegId>, n: nat, fill: nat, cleaned: set<SegId>)
    requires Ok(g) && Laid(g, chain, n, fill, cleaned)
    ensures NoDup(chain) && forall s :: s in g.m.segs ==> 0 <= s < n
  {
    assert ChainOk(g.m, g.ias, g.pools, 0);
  }

  /** An item of 25 bytes goes into the current segment while that holds less than two. */
  lemma PlacedLaid(g: Alloc, chain: seq<SegId>, n: nat, fill: nat, cleaned: set<SegId>, maxnum: nat)
    requires NoDup(chain) && Laid(g, chain, n, fill, cleaned) && fill < 2
    ensures Laid(PlacedIn(g, 0, UNIT), chain, n, fill + 1, cleaned)
    ensures Ialloc(g, 0, UNIT, false, maxnum, 2 * UNIT) == (PlacedIn(g, 0, UNIT), Some(Addr(chain[|chain| - 1], UNIT * fill)))
  {
    var g', last := PlacedIn(g, 0, UNIT), chain[|chain| - 1];
    assert SegLaid(g.m, last, fill, false);
    assert Offsets(fill) + [UNIT * fill] == Offsets(fill + 1);
    forall i | 0 <= i < |chain| ensures SegLaid(g'.m, chain[i], if i < |chain| - 1 then 2 else fill + 1, i < |chain| - 1) {
      assert SegLaid(g.m, chain[i], if i < |chain| - 1 then 2 else fill, i < |chain| - 1);
    }
  }

  lemma AppendedLaid(g: Alloc, chain: seq<SegId>, n: nat, cleaned: set<SegId>)
    requires NoDup(chain) && Laid(g, chain, n, 2, cleaned) && forall s :: s in g.m.segs ==> 0 <= s < n
    ensures var g1 := Extended(Obtained(g, 2 * UNIT), 0, n);
            NoDup(chain + [n]) && Laid(g1, chain + [n], n + 1, 0, cleaned)
  {
    var last := chain[|chain| - 1];
    assert SegLaid(g.m, last, 2, false);
    var g1 := Extended(Obtained(g, 2 * UNIT), 0, n);
    assert g1 == Append(Create(g, 2 * UNIT), 0, n);
    forall i | 0 <= i < |chain| ensures chain[i] < n { assert SegLaid(g.m, chain[i], 2, i < |chain| - 1); }
    forall i | 0 <= i <= |chain| ensures SegLaid(g1.m, (chain + [n])[i], if i < |chain| then 2 else 0, i < |chain|) {
      if i < |chain| { assert SegLaid(g.m, chain[i], 2, i < |chain| - 1); }
    }
  }

  /** Else it goes into a new one. */
  lemma ExtendedLaid(g: Alloc, chain: seq<SegId>, n: nat, cleaned: set<SegId>, maxnum: nat)
    requires Ok(g) && Laid(g, chain, n, 2, cleaned) && n < maxnum
    ensures var g' := PlacedIn(Extended(Obtained(g, 2 * UNIT), 0, n), 0, UNIT);
            && Laid(g', chain + [n], n + 1, 1, cleaned)
            && Ialloc(g, 0, UNIT, false, maxnum, 2 * UNIT) == (g', Some(Addr(n, 0)))
  {
    ChainApart(g, chain, n, 2, cleaned);
    assert SegLaid(g.m, chain[|chain| - 1], 2, false);
    assert WrittenOff(g, 0) == g;
    AppendedLaid(g, chain, n, cleaned);
    hide Extended, Obtained, AllocOk, NoDup;
    var g1 := Extended(Obtained(g, 2 * UNIT), 0, n);
    PlacedLaid(g1, chain + [n], n + 1, 0, cleaned, maxnum);
    assert SegLaid(g1.m, n, 0, false) by { assert (chain + [n])[|chain|] == n; }
  }

  // ---- the store in between ----

  const MAXNUM: nat := 10

  /** A settled store of one core with these constants, laid out so, with this map, queue and walk. */
  ghost predicate Scene(st: KvStore, chain: seq<SegId>, n: nat, fill: nat, cleaned: set<SegId>, keys: map<Bytes, Addr>,
                        queue: seq<Addr>, cleaning: Option<SegId>, off: int)
    reads st
  {
    && Settled(st, multiset{}) && Laid(st.G(), chain, n, fill, cleaned) && st.keys == keys
    && st.ias[0].queue == queue && st.ias[0].cleaning == cleaning && st.ias[0].cleanOffset == off
    && st.segsize == 2 * UNIT && st.segmaxnum == MAXNUM && st.segcqsize == 1 && st.itemmax == UNIT && st.cleanRatio == 0.5
  }

  /** One SET of a key of one byte. */
  method SetOne(st: KvStore, b: int, ghost chain: seq<SegId>, ghost n: nat, ghost fill: nat, ghost cleaned: set<SegId>, ghost keys: map<Bytes, Addr>,
                ghost queue: seq<Addr>, ghost cleaning: Option<SegId>, ghost off: int, ghost t: Trail) returns (ghost t': Trail)
    requires Scene(st, chain, n, fill, cleaned, keys, queue, cleaning, off) && n < MAXNUM && Ran(st.Cfg(), t, Complete, st.Now())
    modifies st
    ensures Ran(st.Cfg(), t', Complete, st.Now())
    ensures fill < 2 ==> Scene(st, chain, n, fill + 1, cleaned, keys[[b] := Addr(chain[|chain| - 1], UNIT * fill)], queue, cleaning, off)
    ensures fill == 2 ==> Scene(st, chain + [n], n + 1, 1, cleaned, keys[[b] := Addr(n, 0)], queue, cleaning, off)
  {
    hide KvStore.Valid, AllHome, Queued, Laid, Ran, SetSpec;
    ghost var pre := st.Now();
    LaidCore(st, chain, n, fill, cleaned);
    ValidAlloc(st);
    var ok;
    ok, t' := SetStep(st, [b], [], t);
    if fill < 2 {
      SetPlaced(st.Cfg(), pre, st.Now(), b, ok, chain, n, fill, cleaned);
    } else {
      SetExtended(st.Cfg(), pre, st.Now(), b, ok, chain, n, cleaned);
    }
  }

  lemma SetPlaced(cfg: Settings, pre: Snapshot, post: Snapshot, b: int, ok: bool, chain: seq<SegId>, n: nat, fill: nat, cleaned: set<SegId>)
    requires SetSpec(cfg, pre, post, 0, [b], [], ok) && cfg.maxnum == MAXNUM && cfg.segsize == 2 * UNIT
    requires Ok(pre.alloc) && Laid(pre.alloc, chain, n, fill, cleaned) && fill < 2
    ensures Laid(post.alloc, chain, n, fill + 1, cleaned) && |pre.alloc.ias| == |post.alloc.ias| == 1
    ensures post.alloc.ias[0] == pre.alloc.ias[0].(cur := post.alloc.ias[0].cur)
    ensures post.core.keys == pre.core.keys[[b] := Addr(chain[|chain| - 1], UNIT * fill)]
  {
    hide AllocOk, Laid, OnlyFreed, SameItems, NoDup, Ialloc;
    ChainApart(pre.alloc, chain, n, fill, cleaned);
    PlacedLaid(pre.alloc, chain, n, fill, cleaned, MAXNUM);
    LaidFreed(PlacedIn(pre.alloc, 0, UNIT), post.alloc, chain, n, fill + 1, cleaned);
    OneCore(pre.alloc, chain, n, fill, cleaned);
  }

  lemma SetExtended(cfg: Settings, pre: Snapshot, post: Snapshot, b: int, ok: bool, chain: seq<SegId>, n: nat, cleaned: set<SegId>)
    requires SetSpec(cfg, pre, post, 0, [b], [], ok) && cfg.maxnum == MAXNUM && cfg.segsize == 2 * UNIT
    requires Ok(pre.alloc) && Laid(pre.alloc, chain, n, 2, cleaned) && n < MAXNUM
    ensures Laid(post.alloc, chain + [n], n + 1, 1, cleaned) && |pre.alloc.ias| == |post.alloc.ias| == 1
    ensures post.alloc.ias[0] == pre.alloc.ias[0].(cur := post.alloc.ias[0].cur)
    ensures post.core.keys == pre.core.keys[[b] := Addr(n, 0)]
  {
    hide AllocOk, Laid, OnlyFreed, SameItems, NoDup, Ialloc;
    ExtendedLaid(pre.alloc, chain, n, cleaned, MAXNUM);
    LaidFreed(PlacedIn(Extended(Obtained(pre.alloc, 2 * UNIT), 0, n), 0, UNIT), post.alloc, chain + [n], n + 1, 1, cleaned);
    OneCore(pre.alloc, chain, n, 2, cleaned);
  }

  lemma OneCore(g: Alloc, chain: seq<SegId>, n: nat, fill: nat, cleaned: set<SegId>)
    requires Laid(g, chain, n, fill, cleaned)
    ensures |g.ias| == |g.pools.chains| == 1
  {
  }

  lemma LaidCore(st: KvStore, chain: seq<SegId>, n: nat, fill: nat, cleaned: set<SegId>)
    requires Laid(st.G(), chain, n, fill, cleaned)
    ensures |st.ias| == 1 && fill <= 2 && st.alloced == n && chain != []
  {
    assert SegLaid(st.M(), chain[|chain| - 1], fill, false);
  }

  // ---- the accounts of its closed segments ----

  function Referred(keys: map<Bytes, Addr>, queue: seq<Addr>, a: Addr): bool { a in keys.Values || a in queue }

  /** Bytes of the two items of segment s that are no longer referenced. */
  function Waste(keys: map<Bytes, Addr>, queue: seq<Addr>, s: SegId): nat {
    (if Referred(keys, queue, Addr(s, 0)) then 0 else UNIT) + if Referred(keys, queue, Addr(s, UNIT)) then 0 else UNIT
  }

  lemma HeldIsQueued(ias: seq<Allocator>, queue: seq<Addr>, a: Addr)
    requires |ias| == 1 && ias[0].queue == queue
    ensures (Queued(ias) + multiset{})[a] > 0 <==> a in queue
  {
    assert ias[1..] == [];
  }

  lemma LiveItem(s: Core, hash: Hash, seg: SegId, off: int, keys: map<Bytes, Addr>, queue: seq<Addr>)
    requires CoreOk(s, hash) && s.keys == keys && Addr(seg, off) in s.heap && TotalSize(s.heap[Addr(seg, off)]) == UNIT
    requires s.held[Addr(seg, off)] > 0 <==> Addr(seg, off) in queue
    ensures LiveAt(s.heap, seg, off) == if Referred(keys, queue, Addr(seg, off)) then UNIT else 0
  {
    LiveIff(s, hash, Addr(seg, off));
  }

  /** What is wasted in a closed segment is what is freed in it. */
  lemma Account(st: KvStore, chain: seq<SegId>, n: nat, fill: nat, cleaned: set<SegId>, keys: map<Bytes, Addr>, queue: seq<Addr>,
                cleaning: Option<SegId>, off: int, i: int)
    requires Scene(st, chain, n, fill, cleaned, keys, queue, cleaning, off) && 0 <= i < |chain| - 1
    ensures var s := chain[i];
            && s in st.segs && st.segs[s].size == 2 * UNIT && st.segs[s].freed == Waste(keys, queue, s)
            && (st.segs[s].cleaned <==> s in cleaned) && st.segs[s].filler == 0
            && s in st.logs && st.logs[s] == [0, UNIT] && Addr(s, 0) in st.heap && Addr(s, UNIT) in st.heap
            && (forall a: Addr :: a == Addr(s, 0) || a == Addr(s, UNIT) ==> (st.heap[a].refcount > 0 <==> Referred(keys, queue, a)))
  {
    var s := chain[i];
    assert SegLaid(st.M(), s, 2, true);
    ChainLink(st.G(), 0, i);
    assert SegOk(st.heap, st.M(), s);
    var seg := st.segs[s];
    assert TileOk(st.heap, seg, s, [0, UNIT], 0) && TileOk(st.heap, seg, s, [0, UNIT], 1);
    HeldIsQueued(st.ias, queue, Addr(s, 0));
    HeldIsQueued(st.ias, queue, Addr(s, UNIT));
    LiveItem(st.C(), st.hash, s, 0, keys, queue);
    LiveItem(st.C(), st.hash, s, UNIT, keys, queue);
    LiveIff(st.C(), st.hash, Addr(s, 0));
    LiveIff(st.C(), st.hash, Addr(s, UNIT));
    LiveTwo(st.heap, s);
  }

  lemma LiveTwo(heap: Heap, s: SegId)
    ensures Live(heap, s, [0, UNIT]) == LiveAt(heap, s, 0) + LiveAt(heap, s, UNIT)
  {
    var two, one: seq<int> := [0, UNIT], [0];
    assert two[..1] == one && one[..0] == [];
    assert Live(heap, s, one) == LiveAt(heap, s, 0);
    assert Live(heap, s, two) == Live(heap, s, two[..1]) + LiveAt(heap, s, two[1]);
  }

  // ---- maintenance while nothing is dead ----

  ghost predicate NoneDead(chain: seq<SegId>, keys: map<Bytes, Addr>, queue: seq<Addr>) {
    forall i :: 0 <= i < |chain| - 1 ==> Waste(keys, queue, chain[i]) < 2 * UNIT
  }

  lemma NoneRecycled(st: KvStore, chain: seq<SegId>, n: nat, fill: nat, cleaned: set<SegId>, keys: map<Bytes, Addr>, queue: seq<Addr>,
                     cleaning: Option<SegId>, off: int)
    requires Scene(st, chain, n, fill, cleaned, keys, queue, cleaning, off) && NoneDead(chain, keys, queue)
    ensures |st.ias| == 1 && st.pools.chains == [chain] && RecycleFrom(st.G(), 0, 0) == st.G()
    ensures forall i :: 0 <= i < |chain| - 1 ==> !Dead(st.segs, chain[i])
  {
    forall i | 0 <= i < |chain| - 1 ensures !Dead(st.segs, chain[i]) { Account(st, chain, n, fill, cleaned, keys, queue, cleaning, off, i); }
    NothingDead(st.G(), 0, 0);
  }

  lemma StartedLaid(g: Alloc, g': Alloc, chain: seq<SegId>, n: nat, fill: nat, cleaned: set<SegId>, h: SegId)
    requires Laid(g, chain, n, fill, cleaned) && h in g.m.segs && |g'.ias| == 1
    requires g' == Started(g, 0, Some(h)).(ias := g'.ias) && WorkOnly(Started(g, 0, Some(h)).ias, g'.ias, 0)
    ensures Laid(g', chain, n, fill, cleaned + {h}) && g'.ias[0].cleaning == Some(h)
  {
    forall i | 0 <= i < |chain| ensures SegLaid(g'.m, chain[i], if i < |chain| - 1 then 2 else fill, i < |chain| - 1) {
      assert SegLaid(g.m, chain[i], if i < |chain| - 1 then 2 else fill, i < |chain| - 1);
    }
  }

  /** A call that takes up candidate h and walks nothing: it is the first, or the queue is full. */
  method TakeUpNext(st: KvStore, ghost h: SegId, ghost chain: seq<SegId>, ghost n: nat, ghost fill: nat, ghost cleaned: set<SegId>, ghost keys: map<Bytes, Addr>,
                    ghost queue: seq<Addr>, ghost cleaning: Option<SegId>, ghost off: int, ghost t: Trail) returns (ghost t': Trail)
    requires Scene(st, chain, n, fill, cleaned, keys, queue, cleaning, off) && NoneDead(chain, keys, queue) && Ran(st.Cfg(), t, Complete, st.Now())
    requires cleaning == None || (off == 2 * UNIT && |queue| == 1)
    requires chain != [] && Pick(st.segs, 0.5, Closeds(chain)) == Some(h)
    modifies st
    ensures Ran(st.Cfg(), t', Complete, st.Now())
    ensures Scene(st, chain, n, fill, cleaned + {h}, keys, queue, Some(h), 0)
  {
    hide KvStore.Valid, AllHome, Queued, Laid, Pick, Started, Referenced, RecycleFrom, NoneDead, Survivors, Ran;
    ghost var cfg, pre := st.Cfg(), st.Now();
    LaidCore(st, chain, n, fill, cleaned);
    NoneRecycled(st, chain, n, fill, cleaned, keys, queue, cleaning, off);
    Begin(st, 0);
    PickedSeg(st, chain, n, fill, cleaned, keys, queue, cleaning, off, h);
    var course;
    ghost var k;
    course, k, t' := MaintainStep(st, t);
    StartedLaid(pre.alloc, st.G(), chain, n, fill, cleaned, h);
  }

  lemma PickedSeg(st: KvStore, chain: seq<SegId>, n: nat, fill: nat, cleaned: set<SegId>, keys: map<Bytes, Addr>, queue: seq<Addr>,
                  cleaning: Option<SegId>, off: int, h: SegId)
    requires Scene(st, chain, n, fill, cleaned, keys, queue, cleaning, off)
    requires chain != [] && Pick(st.segs, 0.5, Closeds(chain)) == Some(h)
    ensures h in st.segs && FillerFits(st.segs[h].filler)
  {
    PickIsBest(st.segs, 0.5, Closeds(chain));
    var i :| 0 <= i < |chain| - 1 && chain[i] == h;
    Account(st, chain, n, fill, cleaned, keys, queue, cleaning, off, i);
  }

  lemma WorkLaid(g: Alloc, g': Alloc, chain: seq<SegId>, n: nat, fill: nat, cleaned: set<SegId>)
    requires Laid(g, chain, n, fill, cleaned) && g' == g.(ias := g'.ias) && WorkOnly(g.ias, g'.ias, 0)
    ensures Laid(g', chain, n, fill, cleaned) && |g'.ias| == 1 && g'.ias[0].cleaning == g.ias[0].cleaning
  {
  }

  /** The walk of a segment whose first item is dead and whose second is not: with a queue of one it ends at the end. */
  lemma HalfWalk(heap: Heap, seg: Segment, h: SegId, off: int, queue: seq<Addr>, k: int)
    requires Addr(h, 0) in heap && Addr(h, UNIT) in heap && heap[Addr(h, 0)].refcount == 0 && heap[Addr(h, UNIT)].refcount > 0
    requires Queues(heap, seg, [0, UNIT], h, 0, [], queue, IndexFrom([0, UNIT], 0), k)
    requires AtIndex(seg, [0, UNIT], off, k) && (off == seg.size || |queue| >= 1) && seg.size == 2 * UNIT && seg.filler == 0
    ensures queue == [Addr(h, UNIT)] && off == 2 * UNIT
  {
    var log: seq<int> := [0, UNIT];
    assert log[0] == 0 && IndexFrom(log, 0) == 0;
    var one: seq<int> := [0];
    assert log[0..0] == [] && log[0..1] == one && log[0..2] == log && log[..1] == one && one[..0] == [];
    assert Referenced(heap, h, one) == Referenced(heap, h, one[..0]) + [] == [];
    assert Referenced(heap, h, log) == Referenced(heap, h, log[..1]) + [Addr(h, UNIT)] == [Addr(h, UNIT)];
  }

  method WalkHalf(st: KvStore, ghost i: nat, ghost chain: seq<SegId>, ghost n: nat, ghost fill: nat, ghost cleaned: set<SegId>, ghost keys: map<Bytes, Addr>,
                  ghost t: Trail) returns (ghost t': Trail)
    requires Ran(st.Cfg(), t, Complete, st.Now())
    requires i < |chain| - 1 && Scene(st, chain, n, fill, cleaned, keys, [], Some(chain[i]), 0) && NoneDead(chain, keys, [])
    requires !Referred(keys, [], Addr(chain[i], 0)) && Referred(keys, [], Addr(chain[i], UNIT))
    modifies st
    ensures Ran(st.Cfg(), t', Complete, st.Now())
    ensures Scene(st, chain, n, fill, cleaned, keys, [Addr(chain[i], UNIT)], Some(chain[i]), 2 * UNIT)
  {
    hide KvStore.Valid, AllHome, Queued, Laid, Pick, Started, Referenced, RecycleFrom, NoneDead, Survivors, Queues, AtIndex, IndexFrom, Ran;
    ghost var pre, h := st.Now(), chain[i];
    LaidCore(st, chain, n, fill, cleaned);
    NoneRecycled(st, chain, n, fill, cleaned, keys, [], Some(h), 0);
    Begin(st, 0);
    Account(st, chain, n, fill, cleaned, keys, [], Some(h), 0, i);
    ghost var heap, seg := st.heap, st.segs[h];
    assert heap[Addr(h, 0)].refcount == 0 && heap[Addr(h, UNIT)].refcount > 0;
    var course;
    ghost var k;
    course, k, t' := MaintainStep(st, t);
    HalfWalk(heap, seg, h, st.ias[0].cleanOffset, st.ias[0].queue, k);
    WorkLaid(pre.alloc, st.G(), chain, n, fill, cleaned);
  }

  // ---- the run that leaves a walk dangling ----

  lemma FirstLaid()
    ensures Laid(WithCore(NOTHING, 2 * UNIT), [0], 2, 0, {})
  {
  }

  method Start() returns (st: KvStore, ghost t: Trail)
    ensures fresh(st) && Scene(st, [0], 2, 0, {}, map[], [], None, 0) && Ran(st.Cfg(), t, Complete, st.Now())
  {
    hide KvStore.Valid, AllHome, CoreOk, Laid, Obtained, WithCore, Ran;
    st := new KvStore(NoHash, 1, 2 * UNIT, MAXNUM, 1, UNIT, 0.5);
    CoreCanJoin();
    var ok := st.AddCore();
    FirstLaid();
    FirstQueue();
    RanStart(st.Cfg(), st.Now());
    t := Trail([], [], [st.Now()]);
  }

  function NoHash(key: Bytes): nat { 0 }

  lemma CoreCanJoin()
    ensures !Exhausted(NOTHING, MAXNUM) && !Exhausted(Obtained(NOTHING, 2 * UNIT), MAXNUM)
  {
  }

  lemma FirstQueue()
    ensures var ias := WithCore(NOTHING, 2 * UNIT).ias;
            |ias| == 1 && ias[0].queue == [] && ias[0].cleaning == None && ias[0].cleanOffset == 0 && Queued(ias) == multiset{}
  {
    var ias := WithCore(NOTHING, 2 * UNIT).ias;
    assert ias[1..] == [];
  }

  lemma PickOne(segs: map<SegId, Segment>, a: SegId, b: SegId)
    requires a in segs && b in segs && segs[a].size == 2 * UNIT == segs[b].size
    ensures segs[a].freed == UNIT && !segs[a].cleaned && segs[b].freed == 0 ==> Pick(segs, 0.5, [a, b]) == Some(a)
    ensures segs[a].cleaned && segs[b].freed == UNIT && !segs[b].cleaned ==> Pick(segs, 0.5, [a, b]) == Some(b)
  {
    var two, one := [a, b], [a];
    assert two[..1] == one && one[..0] == [];
    assert Pick(segs, 0.5, []) == None;
    assert UNIT as real / (2 * UNIT) as real == 0.5 && 0 as real / (2 * UNIT) as real == 0.0;
  }

  const A: Bytes := [0]
  const B: Bytes := [1]
  const C: Bytes := [2]
  const D: Bytes := [3]

  /** Where the four keys map after the first five SETs, after the sixth, and after the seventh. */
  const KEYS5: map<Bytes, Addr> := map[A := Addr(3, 0), B := Addr(0, UNIT), C := Addr(2, 0), D := Addr(2, UNIT)]
  const KEYS6: map<Bytes, Addr> := map[A := Addr(3, 0), B := Addr(0, UNIT), C := Addr(3, UNIT), D := Addr(2, UNIT)]
  const KEYS7: map<Bytes, Addr> := map[A := Addr(3, 0), B := Addr(0, UNIT), C := Addr(3, UNIT), D := Addr(4, 0)]
  const QUEUE: seq<Addr> := [Addr(0, UNIT)]

  lemma Mapped(keys: map<Bytes, Addr>, k: Bytes, a: Addr)
    requires k in keys && keys[k] == a
    ensures a in keys.Values
  {
  }

  lemma Wasted5()
    ensures Waste(KEYS5, [], 0) == UNIT && Waste(KEYS5, [], 2) == 0
    ensures !Referred(KEYS5, [], Addr(0, 0)) && Referred(KEYS5, [], Addr(0, UNIT))
  {
    Mapped(KEYS5, B, Addr(0, UNIT));
    Mapped(KEYS5, C, Addr(2, 0));
    Mapped(KEYS5, D, Addr(2, UNIT));
  }

  lemma Wasted6()
    ensures Waste(KEYS6, QUEUE, 0) == UNIT && Waste(KEYS6, QUEUE, 2) == UNIT
  {
    Mapped(KEYS6, B, Addr(0, UNIT));
    Mapped(KEYS6, D, Addr(2, UNIT));
  }

  lemma Wasted7()
    ensures Waste(KEYS7, QUEUE, 2) == 2 * UNIT
  {
  }

  /** The first item of A, and what follows it in segment 0. */
  method ThreeSets() returns (st: KvStore, ghost t: Trail)
    ensures fresh(st) && Ran(st.Cfg(), t, Complete, st.Now())
    ensures Scene(st, [0, 2], 3, 1, {}, map[A := Addr(0, 0), B := Addr(0, UNIT), C := Addr(2, 0)], [], None, 0)
  {
    hide Scene, Ran;
    st, t := Start();
    t := SetOne(st, 0, [0], 2, 0, {}, map[], [], None, 0, t);
    t := SetOne(st, 1, [0], 2, 1, {}, map[A := Addr(0, 0)], [], None, 0, t);
    t := SetOne(st, 2, [0], 2, 2, {}, map[A := Addr(0, 0), B := Addr(0, UNIT)], [], None, 0, t);
    assert [0] + [2] == [0, 2];
  }

  /** A, B, C and D, and A once more: its old item is the first of segment 0. */
  method FiveSets() returns (st: KvStore, ghost t: Trail)
    ensures fresh(st) && Ran(st.Cfg(), t, Complete, st.Now()) && Scene(st, [0, 2, 3], 4, 1, {}, KEYS5, [], None, 0)
  {
    hide Scene, Ran;
    st, t := ThreeSets();
    t := SetOne(st, 3, [0, 2], 3, 1, {}, map[A := Addr(0, 0), B := Addr(0, UNIT), C := Addr(2, 0)], [], None, 0, t);
    t := SetOne(st, 0, [0, 2], 3, 2, {}, map[A := Addr(0, 0), B := Addr(0, UNIT), C := Addr(2, 0), D := Addr(2, UNIT)], [], None, 0, t);
    assert [0, 2] + [3] == [0, 2, 3];
    assert map[A := Addr(0, 0), B := Addr(0, UNIT), C := Addr(2, 0), D := Addr(2, UNIT)][[0] := Addr(3, 0)] == KEYS5;
  }

  lemma PickIn3(st: KvStore, n: nat, fill: nat, cleaned: set<SegId>, keys: map<Bytes, Addr>, queue: seq<Addr>, cleaning: Option<SegId>, off: int)
    requires Scene(st, [0, 2, 3], n, fill, cleaned, keys, queue, cleaning, off)
    ensures cleaned == {} && Waste(keys, queue, 0) == UNIT && Waste(keys, queue, 2) == 0 ==> Pick(st.segs, 0.5, Closeds([0, 2, 3])) == Some(0)
    ensures cleaned == {0} && Waste(keys, queue, 2) == UNIT ==> Pick(st.segs, 0.5, Closeds([0, 2, 3])) == Some(2)
  {
    Account(st, [0, 2, 3], n, fill, cleaned, keys, queue, cleaning, off, 0);
    Account(st, [0, 2, 3], n, fill, cleaned, keys, queue, cleaning, off, 1);
    PickOne(st.segs, 0, 2);
    var l: seq<SegId> := [0, 2, 3];
    assert Closeds(l) == [0, 2];
    hide Scene, Pick;
  }

  lemma NoneDead3(keys: map<Bytes, Addr>, queue: seq<Addr>)
    requires Waste(keys, queue, 0) < 2 * UNIT && Waste(keys, queue, 2) < 2 * UNIT
    ensures NoneDead([0, 2, 3], keys, queue)
  {
  }

  /** Segment 0 is taken up, and its live item fills the queue; C goes elsewhere; segment 2 is taken up with no room in the queue. */
  method ThreeCalls(st: KvStore, ghost t0: Trail) returns (ghost t: Trail)
    requires Scene(st, [0, 2, 3], 4, 1, {}, KEYS5, [], None, 0) && Ran(st.Cfg(), t0, Complete, st.Now())
    modifies st
    ensures Ran(st.Cfg(), t, Complete, st.Now()) && Scene(st, [0, 2, 3], 4, 2, {0, 2}, KEYS6, QUEUE, Some(2), 0)
  {
    hide Scene, Pick, NoneDead, Waste, Referred, Ran;
    t := t0;
    Wasted5();
    NoneDead3(KEYS5, []);
    PickIn3(st, 4, 1, {}, KEYS5, [], None, 0);
    t := TakeUpNext(st, 0, [0, 2, 3], 4, 1, {}, KEYS5, [], None, 0, t);
    assert {} + {0} == {0};
    t := WalkHalf(st, 0, [0, 2, 3], 4, 1, {0}, KEYS5, t);
    t := SetOne(st, 2, [0, 2, 3], 4, 1, {0}, KEYS5, QUEUE, Some(0), 2 * UNIT, t);
    assert KEYS5[[2] := Addr(3, UNIT)] == KEYS6;
    Wasted6();
    NoneDead3(KEYS6, QUEUE);
    PickIn3(st, 4, 2, {0}, KEYS6, QUEUE, Some(0), 2 * UNIT);
    t := TakeUpNext(st, 2, [0, 2, 3], 4, 2, {0}, KEYS6, QUEUE, Some(0), 2 * UNIT, t);
    assert {0} + {2} == {0, 2};
  }

  /** With D gone from segment 2 nothing there is referenced, its walk has not begun, and the queue is full. */
  lemma IsStaleNow(st: KvStore)
    requires Scene(st, [0, 2, 3, 4], 5, 1, {0, 2}, KEYS7, QUEUE, Some(2), 0)
    ensures |st.ias| == 1 == |st.pools.chains| && FindsStale(st.Cfg(), st.Now(), 0)
  {
    Wasted7();
    Account(st, [0, 2, 3, 4], 5, 1, {0, 2}, KEYS7, QUEUE, Some(2), 0, 1);
  }

  /**
   A run of seven SETs and four maintenance calls, from an empty store, whose last call finds the walk
   stale and leaves it dangling.
   */
  method StaleRun() returns (st: KvStore, ghost t: Trail)
    ensures Ran(st.Cfg(), t, StaleWalk, st.Now()) && Dangling(st, 0)
  {
    hide Scene, MaintainSpec, FindsStale, Ran, Dangling;
    st, t := FiveSets();
    t := ThreeCalls(st, t);
    t := SetOne(st, 3, [0, 2, 3], 4, 2, {0, 2}, KEYS6, QUEUE, Some(2), 0, t);
    assert [0, 2, 3] + [4] == [0, 2, 3, 4] && KEYS6[[3] := Addr(4, 0)] == KEYS7;
    IsStaleNow(st);
    SceneSettled(st, [0, 2, 3, 4], 5, 1, {0, 2}, KEYS7, QUEUE, Some(2), 0);
    ghost var pre := st.Now();
    var course;
    ghost var k;
    course, k, t := MaintainStep(st, t);
    StaleCourse(st.Cfg(), pre, st.Now(), 0, course, k);
  }

  lemma SceneSettled(st: KvStore, chain: seq<SegId>, n: nat, fill: nat, cleaned: set<SegId>, keys: map<Bytes, Addr>, queue: seq<Addr>,
                     cleaning: Option<SegId>, off: int)
    requires Scene(st, chain, n, fill, cleaned, keys, queue, cleaning, off)
    ensures Settled(st, multiset{})
  {
  }

  lemma StaleCourse(cfg: Settings, pre: Snapshot, post: Snapshot, c: int, course: Course, k: int)
    requires MaintainSpec(cfg, pre, post, c, course, k) && FindsStale(cfg, pre, c)
    ensures course == Stale
  {
  }

  // ---- the run that loses a walk ----

  const BIG: nat := 100100
  const LONG: nat := 100085

  /** One item at the start of segment 0, which is current, or closed with the rest written off. */
  ghost predicate OneThere(g: Alloc, closed: bool, cleaned: bool) {
    && |g.ias| == 1 && g.ias[0].reserved.Some? && g.ias[0].queue == [] && g.freeHead == None && 0 in g.m.segs && 0 in g.m.logs && g.m.logs[0] == [0]
    && (if closed then g.pools.chains == [[0, 2]] && g.ias[0].cur == 2 && g.alloced == 3 else g.pools.chains == [[0]] && g.ias[0].cur == 0 && g.alloced == 2)
    && g.m.segs[0].size == BIG && g.m.segs[0].cleaned == cleaned
    && (if closed then g.m.segs[0].filler == BIG - UNIT && g.m.segs[0].offset == BIG && g.m.segs[0].inactive
        else g.m.segs[0].filler == 0 && g.m.segs[0].offset == UNIT && !g.m.segs[0].inactive)
  }

  lemma ShortItem(g: Alloc, g': Alloc)
    requires g == WithCore(NOTHING, BIG) && OnlyFreed(PlacedIn(g, 0, UNIT).m, g'.m) && g' == PlacedIn(g, 0, UNIT).(m := g'.m)
    ensures Ialloc(g, 0, UNIT, false, MAXNUM, BIG) == (PlacedIn(g, 0, UNIT), Some(Addr(0, 0)))
    ensures OneThere(g', false, false) && g'.ias[0].cleaning == None
  {
    assert SameHeader(PlacedIn(g, 0, UNIT).m, g'.m, 0);
    assert [] + [0] == [0];
  }

  lemma LongItem(g: Alloc, g': Alloc)
    requires OneThere(g, false, false)
    requires var g1 := Ialloc(g, 0, LONG, false, MAXNUM, BIG).0; OnlyFreed(g1.m, g'.m) && g' == g1.(m := g'.m)
    ensures Ialloc(g, 0, LONG, false, MAXNUM, BIG).1 == Some(Addr(2, 0))
    ensures OneThere(g', true, false) && g'.ias[0].cleaning == g.ias[0].cleaning
  {
    var g1 := Ialloc(g, 0, LONG, false, MAXNUM, BIG).0;
    var w := WrittenOff(g, 0);
    assert w.m.segs[0].offset == BIG && w.m.segs[0].filler == BIG - UNIT;
    var e := Extended(Obtained(w, BIG), 0, 2);
    assert e == Append(Create(w, BIG), 0, 2) && [0] + [2] == [0, 2];
    assert g1 == PlacedIn(e, 0, LONG);
    assert SameHeader(g1.m, g'.m, 0);
  }

  /** The store of this run: its one short item is live. */
  ghost predicate BigScene(st: KvStore, cleaned: bool, cleaning: Option<SegId>)
    reads st
  {
    && Settled(st, multiset{}) && OneThere(st.G(), true, cleaned) && st.ias[0].cleaning == cleaning && (cleaning.Some? ==> st.ias[0].cleanOffset == 0)
    && A in st.keys && st.keys[A] == Addr(0, 0)
    && st.segsize == BIG && st.segmaxnum == MAXNUM && st.segcqsize == 2 && st.itemmax == LONG && st.cleanRatio == 0.5
  }

  ghost predicate BigSettings(st: KvStore) {
    st.segsize == BIG && st.segmaxnum == MAXNUM && st.segcqsize == 2 && st.itemmax == LONG && st.cleanRatio == 0.5
  }

  method BigCore() returns (st: KvStore, ghost t: Trail)
    ensures fresh(st) && Ran(st.Cfg(), t, Complete, st.Now()) && Settled(st, multiset{}) && st.G() == WithCore(NOTHING, BIG) && |st.ias| == 1 && BigSettings(st)
  {
    hide KvStore.Valid, AllHome, CoreOk, Obtained, WithCore, Queued, Ran;
    st := new KvStore(NoHash, 1, BIG, MAXNUM, 2, LONG, 0.5);
    BigStart();
    var joined := st.AddCore();
    RanStart(st.Cfg(), st.Now());
    t := Trail([], [], [st.Now()]);
  }

  method ShortOne(st: KvStore, ghost t: Trail) returns (ghost t': Trail)
    requires Ran(st.Cfg(), t, Complete, st.Now())
    requires Settled(st, multiset{}) && st.G() == WithCore(NOTHING, BIG) && |st.ias| == 1 && BigSettings(st)
    modifies st
    ensures Ran(st.Cfg(), t', Complete, st.Now())
    ensures Settled(st, multiset{}) && OneThere(st.G(), false, false) && |st.ias| == 1 && st.ias[0].cleaning == None
    ensures A in st.keys && st.keys[A] == Addr(0, 0)
  {
    hide KvStore.Valid, AllHome, WithCore, Queued, OneThere, Ialloc, OnlyFreed, SameItems, Ran;
    ghost var g := st.G();
    var ok;
    ok, t' := SetStep(st, [0], [], t);
    ShortSet(g, st.G(), ok);
  }

  method LongOne(st: KvStore, value: Bytes, ghost t: Trail) returns (ghost t': Trail)
    requires Ran(st.Cfg(), t, Complete, st.Now())
    requires |value| == LONG - ITEM_HEADER - 1
    requires Settled(st, multiset{}) && OneThere(st.G(), false, false) && |st.ias| == 1 && st.ias[0].cleaning == None && BigSettings(st)
    requires A in st.keys && st.keys[A] == Addr(0, 0)
    modifies st
    ensures Ran(st.Cfg(), t', Complete, st.Now()) && BigScene(st, false, None)
  {
    hide KvStore.Valid, AllHome, Queued, OneThere, SetSpec, Ran;
    ghost var pre := st.Now();
    var ok;
    ok, t' := SetStep(st, [1], value, t);
    LongSet(st.Cfg(), pre, st.Now(), value, ok);
  }

  lemma LongSet(cfg: Settings, pre: Snapshot, post: Snapshot, value: Bytes, ok: bool)
    requires SetSpec(cfg, pre, post, 0, [1], value, ok) && |value| == LONG - ITEM_HEADER - 1 && cfg.maxnum == MAXNUM && cfg.segsize == BIG
    requires OneThere(pre.alloc, false, false) && A in pre.core.keys && pre.core.keys[A] == Addr(0, 0)
    ensures OneThere(post.alloc, true, false) && post.alloc.ias[0].cleaning == pre.alloc.ias[0].cleaning
    ensures A in post.core.keys && post.core.keys[A] == Addr(0, 0)
  {
    LongItem(pre.alloc, post.alloc);
    hide Ialloc, OnlyFreed, SameItems, OneThere;
    assert [1] != A;
  }

  /** A short item, and one too long for what is left of the first segment. */
  method TwoSets() returns (st: KvStore, ghost t: Trail)
    ensures fresh(st) && Ran(st.Cfg(), t, Complete, st.Now()) && BigScene(st, false, None)
  {
    hide KvStore.Valid, AllHome, WithCore, Queued, OneThere, Ran;
    st, t := BigCore();
    t := ShortOne(st, t);
    t := LongOne(st, Zeros(), t);
  }

  function Zeros(): (r: Bytes)
    ensures |r| == LONG - 25
  {
    seq(LONG - 25, _ => 0)
  }

  lemma ShortSet(g: Alloc, g': Alloc, ok: bool)
    requires g == WithCore(NOTHING, BIG)
    requires var (g1, a) := Ialloc(g, 0, UNIT, false, MAXNUM, BIG); ok == a.Some? && OnlyFreed(g1.m, g'.m) && g' == g1.(m := g'.m)
    ensures ok && Ialloc(g, 0, UNIT, false, MAXNUM, BIG).1 == Some(Addr(0, 0)) && OneThere(g', false, false) && g'.ias[0].cleaning == None
  {
    assert SameHeader(g.m, g.m, 0);
    assert Ialloc(g, 0, UNIT, false, MAXNUM, BIG).0 == PlacedIn(g, 0, UNIT);
    ShortItem(g, g');
  }

  lemma BigStart()
    ensures !Exhausted(NOTHING, MAXNUM) && !Exhausted(Obtained(NOTHING, BIG), MAXNUM)
    ensures var ias := WithCore(NOTHING, BIG).ias; |ias| == 1 && ias[0].queue == [] && Queued(ias) == multiset{}
  {
    var ias := WithCore(NOTHING, BIG).ias;
    assert ias[1..] == [];
  }

  /** Segment 0 is nearly all waste, but not dead. */
  lemma BigAccount(st: KvStore, cleaned: bool, cleaning: Option<SegId>)
    requires BigScene(st, cleaned, cleaning)
    ensures st.segs[0].freed == BIG - UNIT && !Dead(st.segs, 0) && st.segs[0].size == BIG && st.logs[0] == [0]
    ensures Addr(0, 0) in st.heap && st.heap[Addr(0, 0)].refcount > 0
    ensures !cleaned ==> Pick(st.segs, 0.5, [0]) == Some(0)
  {
    ChainLink(st.G(), 0, 0);
    assert SegOk(st.heap, st.M(), 0) && TileOk(st.heap, st.segs[0], 0, [0], 0);
    Mapped(st.keys, A, Addr(0, 0));
    LiveIff(st.C(), st.hash, Addr(0, 0));
    var one: seq<int> := [0];
    assert one[..0] == [];
    assert Live(st.heap, 0, one) == LiveAt(st.heap, 0, 0);
    var l: seq<SegId> := [0];
    assert l[..0] == [];
    assert (BIG - UNIT) as real / BIG as real >= 0.5;
  }

  /** The first call takes up segment 0, and does not walk it. */
  method FirstCall(st: KvStore, ghost t: Trail) returns (ghost t': Trail)
    requires BigScene(st, false, None) && Ran(st.Cfg(), t, Complete, st.Now())
    modifies st
    ensures Ran(st.Cfg(), t', Complete, st.Now()) && BigScene(st, true, Some(0))
  {
    hide KvStore.Valid, AllHome, Queued, Pick, Started, Referenced, RecycleFrom, Survivors, Queues, Ran;
    ghost var pre := st.Now();
    BigAccount(st, false, None);
    Begin(st, 0);
    assert Closeds([0, 2]) == [0];
    NothingDead(st.G(), 0, 0);
    var course;
    ghost var k;
    course, k, t' := MaintainStep(st, t);
    StartedOne(pre.alloc, st.G());
  }

  lemma StartedOne(g: Alloc, g': Alloc)
    requires OneThere(g, true, false) && |g'.ias| == 1 && g'.ias[0].queue == []
    requires g' == Started(g, 0, Some(0)).(ias := g'.ias) && WorkOnly(Started(g, 0, Some(0)).ias, g'.ias, 0)
    ensures OneThere(g', true, true) && g'.ias[0].cleaning == Some(0)
  {
  }

  lemma MisfitNow(st: KvStore)
    requires BigScene(st, true, Some(0))
    ensures |st.ias| == 1 == |st.pools.chains| && FindsMisfit(st.Cfg(), st.Now(), 0)
  {
    BigAccount(st, true, Some(0));
    Begin(st, 0);
    var one: seq<int> := [0];
    assert one[0] == 0 && IndexFrom(one, 0) == 0 && one[0..] == one && one[..0] == [];
    assert |Referenced(st.heap, 0, one)| <= 1;
    assert !FillerFits(BIG - UNIT);
  }

  /** A run of two SETs and two maintenance calls, from an empty store, whose last call loses the walk in the filler. */
  method AstrayRun() returns (st: KvStore, ghost t: Trail)
    ensures Ran(st.Cfg(), t, AstrayWalk, st.Now())
  {
    hide KvStore.Valid, AllHome, Queued, OneThere, MaintainSpec, FindsMisfit, Ran;
    st, t := TwoSets();
    t := FirstCall(st, t);
    MisfitNow(st);
    ghost var pre := st.Now();
    var course;
    ghost var k;
    course, k, t := MaintainStep(st, t);
    AstrayCourse(st.Cfg(), pre, st.Now(), 0, course, k);
  }

  lemma AstrayCourse(cfg: Settings, pre: Snapshot, post: Snapshot, c: int, course: Course, k: int)
    requires MaintainSpec(cfg, pre, post, c, course, k) && FindsMisfit(cfg, pre, c)
    ensures course == Astray
  {
  }
}
