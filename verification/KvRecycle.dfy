/**
 The first half of `ialloc_maintenance`: recycling the dead segments of a core's log and choosing the
 next segment to clean. The core's own walk may stand in a recycled segment: the code does not move it.
 */
module KvRecycle {
  import opened Basics
  import opened KvTable
  import opened KvLog
  import opened KvInvariant
  import opened KvCore
  import opened KvAlloc
  import opened KvWalk
  import opened KvStore

  // ---- recycling one segment ----

  predicate Dead(segs: map<SegId, Segment>, s: SegId) {
    s in segs && segs[s].freed == segs[s].size
  }

  /** Everything about the store but the position of core c's walk. */
  ghost predicate ValidBut(st: KvStore, c: int)
    reads st
  {
    && |st.buckets| == |st.chains| && |st.buckets| > 0
    && CoreOk(st.C(), st.hash)
    && AllocOk(st.M(), st.ias, st.pools, st.freeHead, st.alloced)
    && st.alloced <= st.segmaxnum && st.itemmax < st.segsize
    && TidyBut(st.heap, st.M(), st.ias, st.Lim(), c)
  }

  lemma ValidParts(st: KvStore, c: int)
    ensures st.Valid() <==> ValidBut(st, c) && WalkOk(st.M(), st.ias, c)
  {
  }

  lemma RelinkedMemory(heap: Heap, m: Memory, p: SegId, next: Option<SegId>)
    requires MemoryOk(heap, m) && p in m.segs
    ensures MemoryOk(heap, m.(segs := m.segs[p := m.segs[p].(next := next)]))
  {
    var m' := m.(segs := m.segs[p := m.segs[p].(next := next)]);
    forall x: SegId ensures SegOk(heap, m', x) {
      assert SegOk(heap, m, x);
      if x == p && m.owner[x] != Free { LogFrame(heap, heap, m.segs[x], m'.segs[x], x, m.logs[x]); }
    }
    forall a: Addr ensures AddrOk(heap, m', a) { assert AddrOk(heap, m, a); }
  }

  /** Only unreachable items go. */
  lemma RecycleCore(s: Core, g: Alloc, hash: Hash, c: int, i: int)
    requires CoreOk(s, hash) && g.m == s.m && Ok(g) && 0 <= c < |g.ias| && 0 <= i < |g.pools.chains[c]| - 1
    requires Dead(g.m.segs, g.pools.chains[c][i])
    requires Present(g.m.segs, g.pools.chains[c])
    ensures CoreOk(s.(heap := Dropped(s.heap, g.pools.chains[c][i]), m := Unlink(g, c, i).m), hash)
    ensures ValuesOf(Dropped(s.heap, g.pools.chains[c][i]), s.keys) == ValuesOf(s.heap, s.keys)
  {
    var l := g.pools.chains[c];
    var x := l[i];
    assert ChainOk(g.m, g.ias, g.pools, c) && ListedOk(g.m, g.ias, g.pools, x) && FlagAt(g.m.segs, l, i);
    RecycledRefs(s.heap, s.m, s.keys, s.held, x);
    forall k | k in s.keys ensures s.keys[k] in s.heap && s.keys[k] in Dropped(s.heap, x) {
      assert KeyOk(s.heap, s.t, s.keys, hash, k) && SameLinks(s.heap, Dropped(s.heap, x), s.keys, s.keys[k]);
    }
    hide AllocOk, TableOk, RefsOk, MemoryOk;
    TableFrame(s.heap, Dropped(s.heap, x), s.t, s.keys, hash);
    if i > 0 { RelinkedMemory(s.heap, s.m, l[i - 1], Some(l[i + 1])); }
    var segs1 := if i == 0 then g.m.segs else g.m.segs[l[i - 1] := g.m.segs[l[i - 1]].(next := Some(l[i + 1]))];
    RecycledMemory(s.heap, s.m.(segs := segs1), x, g.freeHead);
  }

  lemma RecycleTidy(heap: Heap, g: Alloc, lim: Limits, c: int, i: int)
    requires TidyBut(heap, g.m, g.ias, lim, c) && Ok(g) && 0 <= c < |g.ias| && 0 <= i < |g.pools.chains[c]| - 1
    requires Present(g.m.segs, g.pools.chains[c])
    ensures TidyBut(Dropped(heap, g.pools.chains[c][i]), Unlink(g, c, i).m, Unlink(g, c, i).ias, lim, c)
  {
    var x, g' := g.pools.chains[c][i], Unlink(g, c, i);
    assert ListedOk(g.m, g.ias, g.pools, x);
    hide AllocOk;
    forall a: Addr ensures ItemOk(Dropped(heap, x), lim, a) { assert ItemOk(heap, lim, a); }
    forall y: SegId ensures HeaderOk(g'.m.segs, lim, y) { assert HeaderOk(g.m.segs, lim, y); }
    forall d: int | d != c ensures WalkOk(g'.m, g'.ias, d) { assert WalkOk(g.m, g.ias, d); }
  }

  // ---- the loop over a core's log ----

  function Chain(g: Alloc, c: int): seq<SegId> { if 0 <= c < |g.pools.chains| then g.pools.chains[c] else [] }

  /** All that recycling does to segments, lists and allocators, from the i-th segment of core c's log on. */
  function RecycleFrom(g: Alloc, c: int, i: nat): Alloc
    decreases |Chain(g, c)| - i
  {
    var l := Chain(g, c);
    if i + 1 >= |l| || !(|g.ias| == |g.pools.chains| && Present(g.m.segs, l)) then g
    else if Dead(g.m.segs, l[i]) then RecycleFrom(Unlink(g, c, i), c, i)
    else RecycleFrom(g, c, i + 1)
  }

  /** Nothing is recycled when nothing is dead. */
  lemma {:induction false} NothingDead(g: Alloc, c: int, i: nat)
    requires forall j :: 0 <= j < |Chain(g, c)| - 1 ==> !Dead(g.m.segs, Chain(g, c)[j])
    ensures RecycleFrom(g, c, i) == g
    decreases |Chain(g, c)| - i
  {
    if i + 1 < |Chain(g, c)| { NothingDead(g, c, i + 1); }
  }

  /** The segments of the list that stay: the live ones, and the last. */
  function Survivors(segs: map<SegId, Segment>, l: seq<SegId>): seq<SegId> {
    if |l| <= 1 then l
    else if Dead(segs, l[0]) then Survivors(segs, l[1..])
    else [l[0]] + Survivors(segs, l[1..])
  }

  /** The account and the flags of a segment are as they were. */
  ghost predicate SameAccount(segs: map<SegId, Segment>, segs': map<SegId, Segment>, s: SegId) {
    && (s in segs <==> s in segs')
    && (s in segs ==> segs'[s] == segs[s].(offset := segs'[s].offset, next := segs'[s].next))
  }

  /** The links of a recycled segment: what the loop body and `segment_free` write. */
  method Detach(st: KvStore, c: int, ghost i: int, h: SegId, prev: Option<SegId>)
    requires 0 <= c < |st.ias| == |st.pools.chains| && 0 <= i < |st.pools.chains[c]| - 1 && NoDup(st.pools.chains[c])
    requires h == st.pools.chains[c][i] && prev == (if i == 0 then None else Some(st.pools.chains[c][i - 1]))
    requires Present(st.segs, st.pools.chains[c]) && st.segs[h].next == Some(st.pools.chains[c][i + 1])
    modifies st`segs, st`freeHead, st`ias, st`logs, st`owner, st`pools
    ensures st.G() == Unlink(old(st.G()), c, i)
  {
    ghost var g := st.G();
    var next := st.segs[h].next;
    if prev == None {
      st.ias := st.ias[c := st.ias[c].(oldest := next.value)];
    } else {
      st.segs := st.segs[prev.value := st.segs[prev.value].(next := next)];
    }
    st.segs := st.segs[h := st.segs[h].(offset := 0, next := st.freeHead)];
    st.freeHead := Some(h);
    st.logs, st.owner := st.logs[h := []], st.owner[h := Free];
    st.pools := Unlink(g, c, i).pools;
    assert st.ias == Unlink(g, c, i).ias;
  }

  /** One turn of the loop for a dead segment: it is unlinked and put on the free list. */
  method RecycleOne(st: KvStore, c: int, ghost i: int, h: SegId, prev: Option<SegId>)
    requires ValidBut(st, c) && 0 <= c < |st.ias| == |st.pools.chains| && 0 <= i < |st.pools.chains[c]| - 1
    requires h == st.pools.chains[c][i] && prev == (if i == 0 then None else Some(st.pools.chains[c][i - 1]))
    requires Dead(st.segs, h)
    modifies st`heap, st`segs, st`freeHead, st`ias, st`logs, st`owner, st`pools
    ensures ValidBut(st, c) && st.View() == old(st.View()) && st.heap == Dropped(old(st.heap), h)
    ensures Present(old(st.segs), old(st.pools).chains[c])
    ensures st.G() == Unlink(old(st.G()), c, i)
  {
    hide CoreOk, AllocOk, TidyBut, Unlink, Dropped, ValuesOf;
    ghost var s, g := st.C(), st.G();
    UnlinkOk(g, c, i);
    RecycleCore(s, g, st.hash, c, i);
    RecycleTidy(s.heap, g, st.Lim(), c, i);
    ChainLink(g, c, i);
    Detach(st, c, i, h, prev);
    st.heap := Dropped(st.heap, h);
    assert st.M() == Unlink(g, c, i).m && st.ias == Unlink(g, c, i).ias;
  }

  lemma ChainLink(g: Alloc, c: int, i: int)
    requires Ok(g) && 0 <= c < |g.ias| && 0 <= i < |g.pools.chains[c]|
    ensures var l := g.pools.chains[c];
            && NoDup(l) && l[i] in g.m.segs && g.m.segs[l[i]].next == (if i + 1 < |l| then Some(l[i + 1]) else None)
            && (g.m.segs[l[i]].inactive <==> i + 1 < |l|) && l[i] in g.m.owner && g.m.owner[l[i]] == InChain(c)
            && l[0] == g.ias[c].oldest
  {
    var l := g.pools.chains[c];
    assert ChainOk(g.m, g.ias, g.pools, c) && LinkAt(g.m.segs, l, i) && FlagAt(g.m.segs, l, i) && ListedOk(g.m, g.ias, g.pools, l[i]);
  }

  /** What recycling a segment leaves alone. */
  lemma RecycleEffects(g: Alloc, c: int, i: int)
    requires 0 <= c < |g.ias| == |g.pools.chains| && 0 <= i < |g.pools.chains[c]| - 1 && Present(g.m.segs, g.pools.chains[c])
    ensures var g', l := Unlink(g, c, i), g.pools.chains[c];
            && g'.pools.chains == g.pools.chains[c := l[..i] + l[i + 1..]]
            && (forall x: SegId :: SameAccount(g.m.segs, g'.m.segs, x))
            && g'.ias == g.ias[c := g.ias[c].(oldest := g'.ias[c].oldest)]
            && g'.m.owner == g.m.owner[l[i] := Free] && g'.m.logs == g.m.logs[l[i] := []]
            && (AllHome(g.m.owner) ==> AllHome(g'.m.owner))
  {
  }

  function Ratio(seg: Segment): real {
    if seg.size == 0 then 0.0 else seg.freed as real / seg.size as real
  }

  /** A segment worth cleaning: dirty enough, not dead, not cleaned before. */
  predicate Eligible(segs: map<SegId, Segment>, cleanRatio: real, s: SegId) {
    s in segs && !segs[s].cleaned && !Dead(segs, s) && Ratio(segs[s]) >= cleanRatio && Ratio(segs[s]) > 0.0
  }

  /** The candidate after a list of segments: the first eligible one of the greatest ratio. */
  function Pick(segs: map<SegId, Segment>, cleanRatio: real, l: seq<SegId>): Option<SegId> {
    if l == [] then None
    else
      var before, s := Pick(segs, cleanRatio, l[..|l| - 1]), l[|l| - 1];
      if Eligible(segs, cleanRatio, s) && Ratio(segs[s]) > RatioOf(segs, before) then Some(s) else before
  }

  function RatioOf(segs: map<SegId, Segment>, cand: Option<SegId>): real {
    if cand.Some? && cand.value in segs then Ratio(segs[cand.value]) else 0.0
  }

  /** cand is an eligible segment of l with the greatest ratio, or l has none. */
  ghost predicate Best(segs: map<SegId, Segment>, cleanRatio: real, l: seq<SegId>, cand: Option<SegId>) {
    match cand
    case None => forall s :: s in l ==> !Eligible(segs, cleanRatio, s)
    case Some(h) => && h in l && Eligible(segs, cleanRatio, h)
                    && forall s :: s in l && Eligible(segs, cleanRatio, s) ==> Ratio(segs[s]) <= Ratio(segs[h])
  }

  lemma {:induction false} PickIsBest(segs: map<SegId, Segment>, cleanRatio: real, l: seq<SegId>)
    ensures Best(segs, cleanRatio, l, Pick(segs, cleanRatio, l))
  {
    if l != [] {
      var init, s := l[..|l| - 1], l[|l| - 1];
      PickIsBest(segs, cleanRatio, init);
      assert forall x :: x in l <==> x in init || x == s;
    }
  }

  /** A closed segment that may be cleaned: not cleaned before, and some of it still live. */
  ghost predicate MayClean(segs: map<SegId, Segment>, s: SegId) {
    s in segs && !segs[s].cleaned && segs[s].freed < segs[s].size
  }

  /**
   The segment to clean, in bytes: it has bytes freed, at least its share of the clean ratio, and no
   other that may be cleaned has a greater share freed; or no segment has its share freed.
   */
  ghost predicate Chosen(segs: map<SegId, Segment>, cleanRatio: real, l: seq<SegId>, cand: Option<SegId>) {
    match cand
    case None => forall s :: s in l && MayClean(segs, s) ==> segs[s].freed == 0 || segs[s].freed as real < cleanRatio * segs[s].size as real
    case Some(h) =>
      && h in l && MayClean(segs, h) && segs[h].freed > 0 && segs[h].freed as real >= cleanRatio * segs[h].size as real
      && forall s :: s in l && MayClean(segs, s) ==> segs[s].freed * segs[h].size <= segs[h].freed * segs[s].size
  }

  ghost predicate Accounted(segs: map<SegId, Segment>, s: SegId) { s in segs && 0 < segs[s].size && segs[s].freed <= segs[s].size }

  lemma RatioMeans(seg: Segment, r: real)
    requires seg.size > 0
    ensures Ratio(seg) >= r <==> seg.freed as real >= r * seg.size as real
    ensures Ratio(seg) > 0.0 <==> seg.freed > 0
  {
    var q := Ratio(seg);
    assert q * seg.size as real == seg.freed as real;
    RealScale(q, r, seg.size as real);
    RealScale(0.0, q, seg.size as real);
  }

  lemma RealScale(a: real, b: real, k: real)
    requires k > 0.0
    ensures a >= b <==> a * k >= b * k
  {
  }

  lemma RatioCompares(s: Segment, h: Segment)
    requires s.size > 0 && h.size > 0
    ensures Ratio(s) <= Ratio(h) <==> s.freed * h.size <= h.freed * s.size
  {
    var x, y, m, n := Ratio(s), Ratio(h), s.size as real, h.size as real;
    assert x * m == s.freed as real && y * n == h.freed as real;
    RealScale(y, x, m * n);
    Cross(x, m, n);
    Cross(y, n, m);
    assert s.freed as real * n == (s.freed * h.size) as real;
    assert h.freed as real * m == (h.freed * s.size) as real;
  }

  lemma Cross(x: real, m: real, n: real)
    ensures x * (m * n) == (x * m) * n && x * (n * m) == (x * m) * n
  {
  }

  /** So the candidate is what `Chosen` says. */
  lemma PickIsChosen(segs: map<SegId, Segment>, cleanRatio: real, l: seq<SegId>)
    requires forall s :: s in l ==> Accounted(segs, s)
    ensures Chosen(segs, cleanRatio, l, Pick(segs, cleanRatio, l))
  {
    PickIsBest(segs, cleanRatio, l);
    var cand := Pick(segs, cleanRatio, l);
    forall s | s in l ensures Accounted(segs, s) && (Ratio(segs[s]) >= cleanRatio <==> segs[s].freed as real >= cleanRatio * segs[s].size as real)
    {
      RatioMeans(segs[s], cleanRatio);
    }
    forall s | s in l && MayClean(segs, s) ensures Eligible(segs, cleanRatio, s) <==> Ratio(segs[s]) >= cleanRatio && segs[s].freed > 0 {
      RatioMeans(segs[s], cleanRatio);
    }
    hide Ratio, Pick;
    if cand.Some? {
      var h := cand.value;
      RatioMeans(segs[h], cleanRatio) by { assert Accounted(segs, h); }
      forall s | s in l && MayClean(segs, s) ensures segs[s].freed * segs[h].size <= segs[h].freed * segs[s].size {
        LesserShare(segs, cleanRatio, l, s, h);
      }
    }
  }

  lemma LesserShare(segs: map<SegId, Segment>, cleanRatio: real, l: seq<SegId>, s: SegId, h: SegId)
    requires s in l && MayClean(segs, s) && h in l && Accounted(segs, s) && Accounted(segs, h) && Eligible(segs, cleanRatio, h)
    requires Eligible(segs, cleanRatio, s) ==> Ratio(segs[s]) <= Ratio(segs[h])
    ensures segs[s].freed * segs[h].size <= segs[h].freed * segs[s].size
  {
    RatioCompares(segs[s], segs[h]);
    RatioMeans(segs[s], cleanRatio);
    hide Ratio;
  }

  lemma PickStep(segs: map<SegId, Segment>, cleanRatio: real, l: seq<SegId>, k: nat)
    requires k < |l|
    ensures Pick(segs, cleanRatio, l[..k + 1]) ==
            var before := Pick(segs, cleanRatio, l[..k]);
            if Eligible(segs, cleanRatio, l[k]) && Ratio(segs[l[k]]) > RatioOf(segs, before) then Some(l[k]) else before
  {
    assert l[..k + 1][..|l[..k + 1]| - 1] == l[..k] && l[..k + 1][|l[..k + 1]| - 1] == l[k];
  }

  /** Items go only with their segment, and no other item is touched. */
  ghost predicate OnlyDropped(heap: Heap, heap': Heap, segs: map<SegId, Segment>, l: seq<SegId>, a: Addr) {
    && (a in heap' ==> a in heap && heap'[a] == heap[a])
    && (a in heap && a !in heap' ==> a.seg in l && Dead(segs, a.seg))
  }

  /** A segment that is not dead keeps its items and its owner. */
  ghost predicate StaysPut(m: Memory, m': Memory, s: SegId) {
    s in m.segs && !Dead(m.segs, s) ==>
      && (s in m.logs ==> s in m'.logs && m'.logs[s] == m.logs[s])
      && (s in m.owner ==> s in m'.owner && m'.owner[s] == m.owner[s])
  }

  /** The j-th segment of the list, if dead, is free now. */
  ghost predicate FreedAt(segs: map<SegId, Segment>, owner: map<SegId, Owner>, l: seq<SegId>, j: int) {
    0 <= j < |l| && Dead(segs, l[j]) ==> l[j] in owner && owner[l[j]] == Free
  }

  /** What has changed after k segments of core c's log have been looked at, i of which stay. */
  ghost predicate Progress(g0: Alloc, heap0: Heap, g: Alloc, heap: Heap, c: int, i: int, k: int) {
    && 0 <= c < |g0.ias| == |g0.pools.chains| == |g.pools.chains| && |g.ias| == |g0.ias|
    && (var l0 := g0.pools.chains[c];
        && 0 <= k < |l0|
        && g.pools.chains == g0.pools.chains[c := g.pools.chains[c]]
        && 0 <= i < |g.pools.chains[c]| && g.pools.chains[c][i..] == l0[k..]
        && Survivors(g0.m.segs, l0) == g.pools.chains[c][..i] + Survivors(g0.m.segs, l0[k..])
        && (forall a: Addr :: OnlyDropped(heap0, heap, g0.m.segs, l0, a)))
    && (forall j :: 0 <= j < k ==> FreedAt(g0.m.segs, g.m.owner, g0.pools.chains[c], j))
    && (forall x: SegId :: SameAccount(g0.m.segs, g.m.segs, x))
    && (forall x: SegId :: StaysPut(g0.m, g.m, x))
    && g.ias == g0.ias[c := g0.ias[c].(oldest := g.ias[c].oldest)]
    && (AllHome(g0.m.owner) ==> AllHome(g.m.owner))
  }

  lemma StartProgress(g: Alloc, heap: Heap, c: int)
    requires 0 <= c < |g.ias| == |g.pools.chains| && g.pools.chains[c] != []
    ensures Progress(g, heap, g, heap, c, 0, 0)
  {
    var l := g.pools.chains[c];
    assert l[0..] == l && l[..0] == [] && g.pools.chains == g.pools.chains[c := l];
  }

  lemma SkipProgress(g0: Alloc, heap0: Heap, g: Alloc, heap: Heap, c: int, i: int, k: int)
    requires Progress(g0, heap0, g, heap, c, i, k) && i < |g.pools.chains[c]| - 1 && !Dead(g.m.segs, g.pools.chains[c][i])
    ensures Progress(g0, heap0, g, heap, c, i + 1, k + 1)
  {
    var l0, l := g0.pools.chains[c], g.pools.chains[c];
    assert l0[k..][0] == l[i..][0] == l[i] && l0[k..][1..] == l0[k + 1..] && l[i..][1..] == l[i + 1..];
    assert SameAccount(g0.m.segs, g.m.segs, l[i]);
    assert l[..i + 1] == l[..i] + [l[i]];
  }

  lemma DropProgress(g0: Alloc, heap0: Heap, g: Alloc, heap: Heap, c: int, i: int, k: int)
    requires Progress(g0, heap0, g, heap, c, i, k) && i < |g.pools.chains[c]| - 1 && Dead(g.m.segs, g.pools.chains[c][i])
    requires Present(g.m.segs, g.pools.chains[c])
    ensures Progress(g0, heap0, Unlink(g, c, i), Dropped(heap, g.pools.chains[c][i]), c, i, k + 1)
    ensures Unlink(g, c, i).pools.chains[c][..i] == g.pools.chains[c][..i]
  {
    RecycleEffects(g, c, i);
    var l0, l, g' := g0.pools.chains[c], g.pools.chains[c], Unlink(g, c, i);
    hide Unlink, AllHome, Ratio;
    assert l0[k..][0] == l[i..][0] == l[i] && l0[k..][1..] == l0[k + 1..] && l[i..][1..] == l[i + 1..];
    assert SameAccount(g0.m.segs, g.m.segs, l[i]);
    assert g'.pools.chains[c] == l[..i] + l[i + 1..];
    assert l[i] == l0[k] && l[i] in l0;
    forall a: Addr ensures OnlyDropped(heap0, Dropped(heap, l[i]), g0.m.segs, l0, a) { assert OnlyDropped(heap0, heap, g0.m.segs, l0, a); }
    forall x: SegId ensures SameAccount(g0.m.segs, g'.m.segs, x) {
      assert SameAccount(g0.m.segs, g.m.segs, x) && SameAccount(g.m.segs, g'.m.segs, x);
    }
    forall x: SegId ensures StaysPut(g0.m, g'.m, x) { assert StaysPut(g0.m, g.m, x); }
    forall j | 0 <= j < k + 1 ensures FreedAt(g0.m.segs, g'.m.owner, l0, j) { assert j < k ==> FreedAt(g0.m.segs, g.m.owner, l0, j); }
  }

  lemma EndProgress(g0: Alloc, heap0: Heap, g: Alloc, heap: Heap, c: int, i: int, k: int)
    requires Progress(g0, heap0, g, heap, c, i, k) && i == |g.pools.chains[c]| - 1
    ensures g.pools.chains == g0.pools.chains[c := Survivors(g0.m.segs, g0.pools.chains[c])] && k == |g0.pools.chains[c]| - 1
  {
    var l := g.pools.chains[c];
    assert l == l[..i] + l[i..];
  }

  /** The closed segments of a log: all but the current one. */
  function Closeds(l: seq<SegId>): seq<SegId>
    requires l != []
  {
    l[..|l| - 1]
  }

  /** One more segment, the k-th of the list, is compared with the best so far. */
  method Consider(segs: map<SegId, Segment>, cleanRatio: real, ghost l: seq<SegId>, ghost k: nat, s: SegId, cand: Option<SegId>, candRatio: real)
    returns (best: Option<SegId>, bestRatio: real)
    requires k < |l| && l[k] == s && s in segs && !Dead(segs, s)
    requires cand == Pick(segs, cleanRatio, l[..k]) && candRatio == RatioOf(segs, cand)
    ensures best == Pick(segs, cleanRatio, l[..k + 1]) && bestRatio == RatioOf(segs, best)
    ensures (forall x :: x in l[..k + 1] ==> Accounted(segs, x)) ==> Chosen(segs, cleanRatio, l[..k + 1], best)
  {
    hide Chosen;
    if forall x :: x in l[..k + 1] ==> Accounted(segs, x) { PickIsChosen(segs, cleanRatio, l[..k + 1]); }
    PickStep(segs, cleanRatio, l, k);
    RatioPositive(segs, cleanRatio, l[..k]);
    best, bestRatio := cand, candRatio;
    if !segs[s].cleaned {
      var ratio := Ratio(segs[s]);
      if ratio >= cleanRatio && ratio > candRatio {
        bestRatio := ratio;
        best := Some(s);
      }
    }
  }

  lemma RatioPositive(segs: map<SegId, Segment>, cleanRatio: real, l: seq<SegId>)
    ensures RatioOf(segs, Pick(segs, cleanRatio, l)) >= 0.0
  {
    PickIsBest(segs, cleanRatio, l);
  }

  /** Only accounts and flags matter. */
  lemma {:induction false} PickFrame(segs: map<SegId, Segment>, segs': map<SegId, Segment>, cleanRatio: real, l: seq<SegId>)
    requires forall s: SegId :: SameAccount(segs, segs', s)
    ensures Pick(segs', cleanRatio, l) == Pick(segs, cleanRatio, l)
    ensures RatioOf(segs', Pick(segs', cleanRatio, l)) == RatioOf(segs, Pick(segs, cleanRatio, l))
  {
    PickIsBest(segs, cleanRatio, l);
    if l != [] {
      PickFrame(segs, segs', cleanRatio, l[..|l| - 1]);
      assert SameAccount(segs, segs', l[|l| - 1]);
    }
    var cand := Pick(segs, cleanRatio, l);
    if cand.Some? { assert SameAccount(segs, segs', cand.value); }
  }

  /**
   The first loop of `ialloc_maintenance`: exactly the dead segments before the current one leave the
   log, only their unreachable items go, and the dirtiest eligible segment is chosen.
   */
  method RecycleDead(st: KvStore, c: int) returns (cand: Option<SegId>)
    requires ValidBut(st, c) && 0 <= c < |st.ias| == |st.pools.chains|
    modifies st`heap, st`segs, st`freeHead, st`ias, st`logs, st`owner, st`pools
    ensures ValidBut(st, c) && st.View() == old(st.View()) && |st.ias| == |old(st.ias)| == |st.pools.chains|
    ensures st.pools.chains == old(st.pools).chains[c := Survivors(old(st.segs), old(st.pools).chains[c])]
    ensures st.ias == old(st.ias)[c := old(st.ias)[c].(oldest := st.ias[c].oldest)]
    ensures st.pools.chains[c] != [] && old(st.pools).chains[c] != []
    ensures cand == Pick(old(st.segs), st.cleanRatio, Closeds(old(st.pools).chains[c]))
    ensures Chosen(old(st.segs), st.cleanRatio, Closeds(old(st.pools).chains[c]), cand)
    ensures st.G() == RecycleFrom(old(st.G()), c, 0)
    ensures forall a: Addr :: OnlyDropped(old(st.heap), st.heap, old(st.segs), old(st.pools).chains[c], a)
    ensures AllHome(old(st.owner)) ==> AllHome(st.owner)
    ensures forall x: SegId :: SameAccount(old(st.segs), st.segs, x)
    ensures forall x: SegId :: StaysPut(old(st.M()), st.M(), x)
    ensures forall j :: 0 <= j < |old(st.pools).chains[c]| - 1 ==> FreedAt(old(st.segs), st.owner, old(st.pools).chains[c], j)
  {
    hide ValidBut, Unlink, Pick, Chosen, RecycleFrom, AllHome, ValuesOf, Ratio, Survivors, OnlyDropped, SameAccount, StaysPut, FreedAt;
    ghost var g0, heap0, i, k := st.G(), st.heap, 0, 0;
    cand := None;
    var candRatio := 0.0;
    AtLink(st, c, 0);
    PickChosen(st, c);
    StartProgress(g0, heap0, c);
    ghost var l0 := g0.pools.chains[c];
    PickNone(st.segs, st.cleanRatio, l0);
    var h, prev := Some(st.ias[c].oldest), None;
    while h.Some? && st.segs[h.value].next.Some? && st.segs[h.value].inactive
      invariant ValidBut(st, c) && st.View() == old(st.View()) && Progress(g0, heap0, st.G(), st.heap, c, i, k)
      invariant h == Some(st.pools.chains[c][i]) && prev == (if i == 0 then None else Some(st.pools.chains[c][i - 1])) && h.value in st.segs
      invariant (st.segs[h.value].next.Some? && st.segs[h.value].inactive) <==> i + 1 < |st.pools.chains[c]|
      invariant RecycleFrom(st.G(), c, i) == RecycleFrom(g0, c, 0)
      invariant cand == Pick(g0.m.segs, st.cleanRatio, l0[..k]) && candRatio == RatioOf(g0.m.segs, cand)
      decreases |g0.pools.chains[c]| - k
    {
      AtLink(st, c, i);
      var next := st.segs[h.value].next;
      ghost var g, heap1 := st.G(), st.heap;
      RecycleStep(g, c, i);
      AllPresent(st, c);
      if st.segs[h.value].freed == st.segs[h.value].size {
        DeadBefore(g0.m.segs, st.segs, h.value);
        assert l0[k..][0] == h.value;
        RecycleOne(st, c, i, h.value, prev);
        RecycleEffects(g, c, i);
        DropProgress(g0, heap0, g, heap1, c, i, k);
        PickStep(g0.m.segs, st.cleanRatio, l0, k);
        k := k + 1;
      } else {
        SkipProgress(g0, heap0, g, heap1, c, i, k);
        PickFrame(g0.m.segs, st.segs, st.cleanRatio, l0[..k]);
        PickFrame(g0.m.segs, st.segs, st.cleanRatio, l0[..k + 1]);
        cand, candRatio := Consider(st.segs, st.cleanRatio, l0, k, h.value, cand, candRatio);
        i, k := i + 1, k + 1;
        prev := h;
      }
      AtLink(st, c, i);
      h := next;
    }
    EndProgress(g0, heap0, st.G(), st.heap, c, i, k);
    RecycleStep(st.G(), c, i);
  }

  /** The accounts of a core's segments are in order. */
  lemma ChainAccounted(s: Core, g: Alloc, hash: Hash, c: int)
    requires CoreOk(s, hash) && Ok(g) && g.m == s.m && 0 <= c < |g.ias| == |g.pools.chains|
    ensures forall x :: x in g.pools.chains[c] ==> Accounted(g.m.segs, x)
  {
    var l := g.pools.chains[c];
    forall x | x in l ensures Accounted(g.m.segs, x) {
      var i :| 0 <= i < |l| && l[i] == x;
      ChainLink(g, c, i);
      assert SegOk(s.heap, s.m, x);
    }
  }

  lemma PickChosen(st: KvStore, c: int)
    requires ValidBut(st, c) && 0 <= c < |st.ias| == |st.pools.chains| && st.pools.chains[c] != []
    ensures Chosen(st.segs, st.cleanRatio, Closeds(st.pools.chains[c]), Pick(st.segs, st.cleanRatio, Closeds(st.pools.chains[c])))
  {
    var l := st.pools.chains[c];
    ChainAccounted(st.C(), st.G(), st.hash, c);
    assert forall x :: x in Closeds(l) ==> x in l;
    hide Pick, Chosen;
    PickIsChosen(st.segs, st.cleanRatio, Closeds(l));
  }

  lemma RecycleStep(g: Alloc, c: int, i: nat)
    requires 0 <= c < |g.pools.chains|
    ensures i + 1 >= |g.pools.chains[c]| ==> RecycleFrom(g, c, i) == g
    ensures i + 1 < |g.pools.chains[c]| && |g.ias| == |g.pools.chains| && Present(g.m.segs, g.pools.chains[c]) ==>
              RecycleFrom(g, c, i) == if Dead(g.m.segs, g.pools.chains[c][i]) then RecycleFrom(Unlink(g, c, i), c, i) else RecycleFrom(g, c, i + 1)
  {
  }

  lemma AllPresent(st: KvStore, c: int)
    requires ValidBut(st, c) && 0 <= c < |st.ias|
    ensures |st.pools.chains| == |st.ias| && Present(st.segs, st.pools.chains[c])
  {
    var l := st.pools.chains[c];
    forall k | 0 <= k < |l| ensures l[k] in st.segs { AtLink(st, c, k); }
  }

  lemma DeadBefore(segs: map<SegId, Segment>, segs': map<SegId, Segment>, s: SegId)
    requires SameAccount(segs, segs', s) && Dead(segs', s)
    ensures Dead(segs, s)
  {
  }

  lemma PickNone(segs: map<SegId, Segment>, cleanRatio: real, l: seq<SegId>)
    ensures Pick(segs, cleanRatio, l[..0]) == None && RatioOf(segs, None) == 0.0
  {
  }

  lemma AtLink(st: KvStore, c: int, i: int)
    requires ValidBut(st, c) && 0 <= c < |st.ias|
    ensures |st.pools.chains| == |st.ias| && st.pools.chains[c] != [] && st.pools.chains[c][0] == st.ias[c].oldest
    ensures 0 <= i < |st.pools.chains[c]| ==>
              var l := st.pools.chains[c];
              && l[i] in st.segs && st.segs[l[i]].next == (if i + 1 < |l| then Some(l[i + 1]) else None)
              && (st.segs[l[i]].inactive <==> i + 1 < |l|)
  {
    var g := st.G();
    assert ChainOk(g.m, g.ias, g.pools, c);
    if 0 <= i < |st.pools.chains[c]| { ChainLink(g, c, i); }
  }
}
