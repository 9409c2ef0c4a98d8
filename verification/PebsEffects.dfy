/**
 What the steps of the page manager do, written out in numbers, list by list and page by page:
 allocation, one sample, the requests a policy pass serves, and the pass as a whole.
 */
module PebsEffects {
  import opened Basics
  import opened Bits
  import opened PebsState
  import opened PebsSteps
  import opened PebsInvariant
  import opened PebsPreservation
  import opened PebsMigration
  import opened PebsCooling
  import opened PebsRuns
  import opened PebsPromotion

  // ---- allocation ----

  /** The page that has been free longest, in DRAM if a frame is free there, is now the newest cold page of its tier. */
  ghost predicate Allocated(s: State, s': State, va: Address) {
    var dram := s.fifos.L(DramFree) != [];
    var free, cold := if dram then DramFree else NvmFree, if dram then DramCold else NvmCold;
    && s.fifos.L(free) != []
    && var p := s.fifos.L(free)[|s.fifos.L(free)| - 1];
       && p in s.pages && s.pages[p].frame.dram == dram && !s.pages[p].present
       && s'.pages == s.pages[p := s.pages[p].(present := true, va := va)]
       && s'.index == s.index[va := p]
       && s'.fifos.L(free) == s.fifos.L(free)[..|s.fifos.L(free)| - 1]
       && s'.fifos.L(cold) == [p] + s.fifos.L(cold)
       && (forall l: ListId :: l != free && l != cold ==> s'.fifos.L(l) == s.fifos.L(l))
       && s'.rings == s.rings && s'.clock == s.clock && s'.dramSweep == s.dramSweep && s'.nvmSweep == s.nvmSweep
  }

  /** DRAM comes before NVM; allocation fails exactly when neither has a free frame. */
  lemma AllocateIs(s: State, va: Address, frames: set<Frame>)
    requires Inv(s, frames)
    ensures Allocate(s, va) == None <==> s.fifos.L(DramFree) == [] && s.fifos.L(NvmFree) == []
    ensures Allocate(s, va).Some? ==> Allocated(s, Allocate(s, va).value, va)
  {
    if Allocate(s, va).Some? {
      var dram := s.fifos.L(DramFree) != [];
      FreePage(s, dram, frames);
      hide Inv;
    }
  }

  lemma FreePage(s: State, dram: bool, frames: set<Frame>)
    requires Inv(s, frames) && s.fifos.L(FreeList(dram)) != []
    ensures var free := s.fifos.L(FreeList(dram)); var p := free[|free| - 1];
            p in s.pages && s.pages[p].frame.dram == dram && !s.pages[p].present
  {
    var free := s.fifos.L(FreeList(dram));
    assert ListOk(s.fifos, FreeList(dram)) && free[|free| - 1] in free;
    assert PageOkAt(s, None, free[|free| - 1]);
  }

  // ---- one sample ----

  /** A ring that has room for one entry less than its capacity, with p put in. */
  function WithEntry(r: seq<PageId>, p: PageId): seq<PageId> {
    if |r| == CAPACITY - 1 then r[1..] + [p] else r + [p]
  }

  /** What is left of a count after k halvings. */
  function Worth(count: nat, k: nat): (r: nat)
    ensures r == count / Pow2(k)
  {
    ShrIsDivision(count, k);
    Shr(count, k)
  }

  /** A sample of page p: its count goes up, a request is filed if its heat is wrong and none is under way, and it ages. */
  ghost predicate SampledNow(s: State, s': State, p: PageId, j: Source) {
    && p in s.pages && s.pages[p].localClock <= s.clock
    && var pg := s.pages[p];
       var d := pg.dramReads + if j == DramRead then 1 else 0;
       var n := pg.nvmReads + if j == NvmRead then 1 else 0;
       var behind := s.clock - pg.localClock;
       var hotNow, idle := d + n >= 8, !pg.ringPresent;
       var tick := Worth(if j == DramRead then d else n, behind) > 24;
       && s'.pages == s.pages[p := pg.(dramReads := Worth(d, behind), nvmReads := Worth(n, behind), localClock := s.clock,
                                       ringPresent := pg.ringPresent || hotNow != pg.hot)]
       && s'.rings.hot == (if hotNow && !pg.hot && idle then WithEntry(s.rings.hot, p) else s.rings.hot)
       && s'.rings.cold == (if !hotNow && pg.hot && idle then WithEntry(s.rings.cold, p) else s.rings.cold)
       && s'.rings.free == s.rings.free
       && s'.clock == (if tick then s.clock + 1 else s.clock)
       && s'.dramSweep == (if tick then s.dramSweep.(need := true) else s.dramSweep)
       && s'.nvmSweep == (if tick then s.nvmSweep.(need := true) else s.nvmSweep)
       && s'.fifos == s.fifos && s'.index == s.index
  }

  /** A sample counts only at an indexed address. */
  lemma SampleIs(s: State, va: Address, j: Source, frames: set<Frame>)
    requires Inv(s, frames)
    ensures va !in s.index ==> Sample(s, va, j) == s
    ensures va in s.index ==> SampledNow(s, Sample(s, va, j), s.index[va], j)
  {
    if va in s.index {
      IndexedPresent(s, va, frames);
      assert MappingOk(s, va) && PageOkAt(s, None, s.index[va]);
      hide Inv;
      SamplePageIs(s, s.index[va], j);
    }
  }

  lemma SamplePageIs(s: State, p: PageId, j: Source)
    requires p in s.pages && s.pages[p].localClock <= s.clock
    ensures SampledNow(s, SamplePage(s, p, j), p, j)
  {
    hide Shr, Pow2;
  }

  // ---- the requests a pass serves ----

  function Requested(s: State, hot: bool): seq<PageId> { if hot then s.rings.hot else s.rings.cold }

  function ListFor(dram: bool, hot: bool): ListId {
    if dram then (if hot then DramHot else DramCold) else (if hot then NvmHot else NvmCold)
  }

  function InUse(s: State): PageId -> bool { (p: PageId) => At(s.pages, p).present }

  /** A page in use among those served has the heat asked for, is on the list for it, and waits no more; no other page changes. */
  ghost predicate ServedPage(s: State, s': State, hot: bool, served: seq<PageId>, q: PageId) {
    q in s.pages ==>
      && q in s'.pages && q in s.fifos.home && q in s'.fifos.home
      && if q in served && s.pages[q].present
         then s'.pages[q] == s.pages[q].(ringPresent := false, hot := hot) && s'.fifos.home[q] == ListFor(s.pages[q].frame.dram, hot)
         else s'.pages[q] == s.pages[q] && s'.fifos.home[q] == s.fifos.home[q]
  }

  /** The first n requests have been served, in order. */
  ghost predicate ServedTo(s: State, s': State, hot: bool, n: nat) {
    && n <= |Requested(s, hot)|
    && Requested(s', hot) == Requested(s, hot)[n..] && Requested(s', !hot) == Requested(s, !hot) && s'.rings.free == s.rings.free
    && s'.clock == s.clock && s'.index == s.index && s'.pages.Keys == s.pages.Keys
    && forall q: PageId :: ServedPage(s, s', hot, Requested(s, hot)[..n], q)
  }

  lemma ServedNothing(s: State, hot: bool, frames: set<Frame>)
    requires Inv(s, frames)
    ensures ServedTo(s, s, hot, 0)
  {
    var r := Requested(s, hot);
    assert r[0..] == r && r[..0] == [];
    forall q: PageId ensures ServedPage(s, s, hot, r[..0], q) { assert PageOkAt(s, None, q); }
  }

  /** One request, from what it does to the page, its list and the rings. */
  lemma ServedPages(s: State, s': State, hot: bool, p: PageId, frames: set<Frame>)
    requires Inv(s, frames) && p in s.pages && s'.pages.Keys == s.pages.Keys
    requires if s.pages[p].present
             then s'.pages == s.pages[p := s.pages[p].(ringPresent := false, hot := hot)]
                  && s'.fifos.home == s.fifos.home[p := ListFor(s.pages[p].frame.dram, hot)]
             else s'.pages == s.pages && s'.fifos.home == s.fifos.home
    ensures forall q: PageId :: ServedPage(s, s', hot, [p], q)
  {
    forall q: PageId ensures ServedPage(s, s', hot, [p], q) { assert PageOkAt(s, None, q); }
  }

  lemma ServeChanges(s: State, s1: State, p: PageId, hot: bool, frames: set<Frame>)
    requires Inv(s, frames) && s.rings.free == [] && s1 == s.(rings := s1.rings) && p in s.pages
    ensures var s' := Serve(s1, p, hot);
            && s'.rings == s1.rings && s'.clock == s.clock && s'.index == s.index && s'.pages.Keys == s.pages.Keys
            && if s.pages[p].present
               then s'.pages == s.pages[p := s.pages[p].(ringPresent := false, hot := hot)]
                    && s'.fifos.home == s.fifos.home[p := ListFor(s.pages[p].frame.dram, hot)]
               else s'.pages == s.pages && s'.fifos.home == s.fifos.home
  {
    assert PageOkAt(s, None, p) && ListsOk(s1.fifos) && CursorsOk(s1);
    hide ListsOk, CursorsOk, PagesOk, RingsOk, IndexOk, FramesOk;
    if s.pages[p].present {
      ServeEffect(s1, p, hot);
      ServeLists(s1, p, hot);
    } else {
      ServeStale(s1, p, hot);
    }
    hide Serve;
  }

  /** One request. */
  lemma ServedOne(s: State, hot: bool, frames: set<Frame>)
    requires Inv(s, frames) && s.rings.free == [] && Requested(s, hot) != []
    ensures ServedTo(s, Serve(PopRing(s, hot), Requested(s, hot)[0], hot), hot, 1)
    ensures Inv(Serve(PopRing(s, hot), Requested(s, hot)[0], hot), frames)
  {
    var r := Requested(s, hot);
    var p, s1 := r[0], PopRing(s, hot);
    assert r[..1] == [p];
    hide Inv, Serve, ServedPage;
    PopRingInv(s, hot, frames);
    ServeInv(s1, p, hot, frames);
    ServeChanges(s, s1, p, hot, frames);
    ServedPages(s, Serve(s1, p, hot), hot, p, frames);
  }

  lemma ServedAdd(s: State, s1: State, s2: State, hot: bool, n: nat)
    requires ServedTo(s, s1, hot, 1) && ServedTo(s1, s2, hot, n) && NoDup(Requested(s, hot))
    ensures ServedTo(s, s2, hot, n + 1)
  {
    var r, r1 := Requested(s, hot), Requested(s1, hot);
    assert r1 == r[1..] && r[..n + 1] == [r[0]] + r1[..n] && r1[n..] == r[n + 1..] && r[..1] == [r[0]];
    assert r[0] !in r1[..n];
    var served := r[..n + 1];
    forall q: PageId ensures ServedPage(s, s2, hot, served, q) {
      assert ServedPage(s, s1, hot, r[..1], q) && ServedPage(s1, s2, hot, r1[..n], q);
    }
  }

  lemma LiveAdd(s: State, s1: State, hot: bool, n: nat)
    requires ServedTo(s, s1, hot, 1) && n <= |Requested(s1, hot)| && forall q :: q in Requested(s, hot) ==> q in s.pages
    ensures n + 1 <= |Requested(s, hot)|
    ensures |Filter(Requested(s, hot)[..n + 1], InUse(s))|
         == |Filter(Requested(s1, hot)[..n], InUse(s1))| + if At(s.pages, Requested(s, hot)[0]).present then 1 else 0
  {
    var r, r1 := Requested(s, hot), Requested(s1, hot);
    assert r[..n + 1] == [r[0]] + r1[..n];
    var all := r[..n + 1];
    assert all[1..] == r1[..n];
    forall q | q in r1[..n] ensures InUse(s)(q) == InUse(s1)(q) { assert q in r; assert ServedPage(s, s1, hot, r[..1], q); }
    FilterSame(r1[..n], InUse(s), InUse(s1));
    hide ServedPage;
  }

  lemma RequestedPages(s: State, hot: bool, frames: set<Frame>)
    requires Inv(s, frames)
    ensures NoDup(Requested(s, hot)) && forall q :: q in Requested(s, hot) ==> q in s.pages
  {
    hide NoDup;
    forall q | q in Requested(s, hot) ensures q in s.pages { assert EntryOk(s, q); }
  }

  /** Requests are served in order until there are none or `budget` of them were for pages in use. */
  lemma ServeRingDoes(s: State, hot: bool, budget: nat, frames: set<Frame>) returns (n: nat)
    requires Inv(s, frames) && s.rings.free == []
    ensures ServedTo(s, ServeRing(s, hot, budget), hot, n)
    ensures |Filter(Requested(s, hot)[..n], InUse(s))| <= budget
    ensures n == |Requested(s, hot)| || |Filter(Requested(s, hot)[..n], InUse(s))| == budget
    decreases |Requested(s, hot)|
  {
    hide Inv, Serve, PopRing, NoDup, ServedTo, Filter, ServeRing, InUse;
    n := 0;
    ServedNothing(s, hot, frames);
    if Requested(s, hot) != [] && budget != 0 {
      ServedOne(s, hot, frames);
      RequestedPages(s, hot, frames);
      var p := Requested(s, hot)[0];
      var s1 := Serve(PopRing(s, hot), p, hot);
      var left := if At(s.pages, p).present then budget - 1 else budget;
      ServeRingStep(s, hot, budget);
      RestRequested(s, s1, hot);
      n := ServeRingDoes(s1, hot, left, frames);
      ServedCount(s1, ServeRing(s1, hot, left), hot, n);
      LiveAdd(s, s1, hot, n);
      ServedAdd(s, s1, ServeRing(s, hot, budget), hot, n);
      n := n + 1;
    } else {
      ServeRingStops(s, hot, budget);
      NoneLive(s, hot);
    }
  }

  lemma ServeRingStops(s: State, hot: bool, budget: nat)
    requires Requested(s, hot) == [] || budget == 0
    ensures ServeRing(s, hot, budget) == s
  {
  }

  lemma NoneLive(s: State, hot: bool)
    ensures |Filter(Requested(s, hot)[..0], InUse(s))| == 0
  {
  }

  lemma ServeRingStep(s: State, hot: bool, budget: nat)
    requires Requested(s, hot) != [] && budget != 0
    ensures ServeRing(s, hot, budget)
         == ServeRing(Serve(PopRing(s, hot), Requested(s, hot)[0], hot), hot, if At(s.pages, Requested(s, hot)[0]).present then budget - 1 else budget)
  {
    hide Serve;
  }

  lemma ServedCount(s: State, s': State, hot: bool, n: nat)
    requires ServedTo(s, s', hot, n)
    ensures n <= |Requested(s, hot)|
  {
  }

  lemma RestRequested(s: State, s1: State, hot: bool)
    requires ServedTo(s, s1, hot, 1)
    ensures Requested(s1, hot) == Requested(s, hot)[1..] && s1.rings.free == s.rings.free
  {
  }

  // ---- the free ring ----

  ghost predicate DrainedPage(s: State, s': State, waiting: seq<PageId>, q: PageId) {
    q in s.pages ==>
      && q in s.fifos.home && q in s'.fifos.home
      && s'.fifos.home[q] == if q in waiting then (if s.pages[q].frame.dram then DramFree else NvmFree) else s.fifos.home[q]
  }

  /** Every page that waited in the free ring is on the free list of its tier, and no other page has moved. */
  ghost predicate Drained(s: State, s': State) {
    && s'.pages == s.pages && s'.clock == s.clock && s'.index == s.index && s'.rings == s.rings.(free := [])
    && forall q: PageId :: DrainedPage(s, s', s.rings.free, q)
  }

  lemma FreeOneDoes(s: State, frames: set<Frame>)
    requires Inv(s, frames) && s.rings.free != []
    ensures var s1, p := FreeOne(s), s.rings.free[0];
            && p in s.pages && s1.pages == s.pages && s1.clock == s.clock && s1.index == s.index
            && s1.rings == s.rings.(free := s.rings.free[1..])
            && s1.fifos.home == s.fifos.home[p := if s.pages[p].frame.dram then DramFree else NvmFree]
  {
    var p := s.rings.free[0];
    assert p in s.rings.free;
    assert EntryOk(s, p) && PageOkAt(s, None, p);
    hide RingsOk, IndexOk, FramesOk, CursorsOk, PagesOk, Relist, MoveCursor;
    RelistFacts(s.fifos, s.fifos.home[p], FreeList(s.pages[p].frame.dram), p);
  }

  lemma DrainFreeDoes(s: State, frames: set<Frame>)
    requires Inv(s, frames)
    ensures Drained(s, DrainFree(s))
    decreases |s.rings.free|
  {
    if s.rings.free == [] {
      forall q: PageId ensures DrainedPage(s, s, [], q) { assert PageOkAt(s, None, q); }
    } else {
      FreeOneDoes(s, frames);
      FreeOneInv(s, frames);
      var s1 := FreeOne(s);
      var r, p := s.rings.free, s.rings.free[0];
      assert r == [p] + r[1..];
      DrainFreeDoes(s1, frames);
      forall q: PageId ensures DrainedPage(s, DrainFree(s), r, q) {
        assert PageOkAt(s, None, q);
        assert DrainedPage(s1, DrainFree(s1), r[1..], q);
      }
      hide Inv, FreeOne;
    }
  }

  // ---- the three rings together ----

  /** How many of the served requests were for pages in use. */
  function LiveServed(s: State, hot: bool, n: nat): nat {
    if n <= |Requested(s, hot)| then |Filter(Requested(s, hot)[..n], InUse(s))| else 0
  }

  /** The free ring is emptied, then hot requests are served, up to 2^20 of them live, then cold ones, up to 128. */
  ghost predicate RequestsDone(s: State, s1: State, n: nat, s2: State, m: nat, s3: State) {
    && Drained(s, s1)
    && ServedTo(s1, s2, true, n) && LiveServed(s1, true, n) <= 1048576 && (n == |s1.rings.hot| || LiveServed(s1, true, n) == 1048576)
    && ServedTo(s2, s3, false, m) && LiveServed(s2, false, m) <= 128 && (m == |s2.rings.cold| || LiveServed(s2, false, m) == 128)
  }

  lemma RequestsDo(s: State, frames: set<Frame>) returns (s1: State, n: nat, s2: State, m: nat)
    requires Inv(s, frames)
    ensures RequestsDone(s, s1, n, s2, m, Requests(s))
    ensures Inv(s1, frames) && Inv(s2, frames) && s1.rings.free == [] == s2.rings.free
  {
    hide Inv, ServeRing, DrainFree, ServedPage, DrainedPage, InUse, Filter;
    DrainFreeDoes(s, frames);
    DrainFreeInv(s, frames);
    s1 := DrainFree(s);
    ServeRingInv(s1, true, HOT_RING_REQS_THRESHOLD, frames);
    n := ServeRingDoes(s1, true, HOT_RING_REQS_THRESHOLD, frames);
    s2 := ServeRing(s1, true, HOT_RING_REQS_THRESHOLD);
    m := ServeRingDoes(s2, false, COLD_RING_REQS_THRESHOLD, frames);
  }

  /** A page in use that was served a request, on its way to the next state. */
  lemma ListedAt(s: State, p: PageId, l: ListId, frames: set<Frame>)
    requires Inv(s, frames) && p in s.fifos.home && s.fifos.home[p] == l
    ensures p in s.fifos.L(l)
  {
    assert HomeOk(s.fifos, p);
  }

  /**
   A page sampled into the wrong heat is on the right list of its tier after the next pass has served
   its requests: cold if it has fewer than eight reads, hot if it has eight.
   */
  lemma SampleCorrectsHeat(s: State, va: Address, j: Source, frames: set<Frame>)
    requires Inv(s, frames) && va in s.index && s.rings.hot == [] == s.rings.cold
    requires At(s.pages, s.index[va]).ringPresent == false
    ensures var p, s3 := s.index[va], Requests(Sample(s, va, j));
            && p in s.pages && p in s3.pages
            && (s.pages[p].hot && s.pages[p].dramReads + s.pages[p].nvmReads + 1 < 8 ==>
                  !s3.pages[p].hot && !s3.pages[p].ringPresent && p in s3.fifos.L(if s.pages[p].frame.dram then DramCold else NvmCold))
            && (!s.pages[p].hot && s.pages[p].dramReads + s.pages[p].nvmReads + 1 >= 8 ==>
                  s3.pages[p].hot && !s3.pages[p].ringPresent && p in s3.fifos.L(if s.pages[p].frame.dram then DramHot else NvmHot))
  {
    var p, s0 := s.index[va], Sample(s, va, j);
    IndexedPresent(s, va, frames);
    SampleIs(s, va, j, frames);
    StepKeepsInv(s, SampleAt(va, j), frames);
    assert Step(s, SampleAt(va, j)) == Some(s0);
    hide Inv, Sample, Step;
    var s1, n, s2, m := RequestsDo(s0, frames);
    RequestsInv(s0, frames);
    var s3 := Requests(s0);
    hide Requests;
    CorrectedBy(s, s0, s1, n, s2, m, s3, p, j, frames);
  }

  /** The page between the rings, when its request is the only one. */
  lemma ServedBetween(s0: State, s1: State, n: nat, s2: State, m: nat, s3: State, p: PageId)
    requires RequestsDone(s0, s1, n, s2, m, s3) && p in s0.pages && |s0.rings.hot| <= 1 && |s0.rings.cold| <= 1
    ensures p in s1.pages && p in s2.pages && p in s3.pages && s1.pages == s0.pages
    ensures ServedPage(s1, s2, true, s0.rings.hot, p) && ServedPage(s2, s3, false, s0.rings.cold, p)
  {
    assert DrainedPage(s0, s1, s0.rings.free, p);
    FewLive(s1, true, n);
    FewLive(s2, false, m);
    hide LiveServed, DrainedPage;
    assert s1.rings.hot[..n] == s0.rings.hot && s2.rings.cold[..m] == s0.rings.cold;
    assert ServedPage(s1, s2, true, Requested(s1, true)[..n], p);
    assert ServedPage(s2, s3, false, Requested(s2, false)[..m], p);
  }

  lemma CorrectedBy(s: State, s0: State, s1: State, n: nat, s2: State, m: nat, s3: State, p: PageId, j: Source, frames: set<Frame>)
    requires SampledNow(s, s0, p, j) && RequestsDone(s0, s1, n, s2, m, s3) && s.rings.hot == [] == s.rings.cold
    requires p in s.pages && s.pages[p].present && !s.pages[p].ringPresent && Inv(s3, frames)
    ensures p in s3.pages
    ensures s.pages[p].hot && s.pages[p].dramReads + s.pages[p].nvmReads + 1 < 8 ==>
              !s3.pages[p].hot && !s3.pages[p].ringPresent && p in s3.fifos.L(if s.pages[p].frame.dram then DramCold else NvmCold)
    ensures !s.pages[p].hot && s.pages[p].dramReads + s.pages[p].nvmReads + 1 >= 8 ==>
              s3.pages[p].hot && !s3.pages[p].ringPresent && p in s3.fifos.L(if s.pages[p].frame.dram then DramHot else NvmHot)
  {
    SampledRings(s, s0, p, j);
    ServedBetween(s0, s1, n, s2, m, s3, p);
    hide Inv, RequestsDone, SampledNow, Fifos.L;
    if s.pages[p].hot && s.pages[p].dramReads + s.pages[p].nvmReads + 1 < 8 {
      ListedAt(s3, p, if s.pages[p].frame.dram then DramCold else NvmCold, frames);
    }
    if !s.pages[p].hot && s.pages[p].dramReads + s.pages[p].nvmReads + 1 >= 8 {
      ListedAt(s3, p, if s.pages[p].frame.dram then DramHot else NvmHot, frames);
    }
  }

  /** The rings and the page after a sample, when the rings were empty. */
  lemma SampledRings(s: State, s0: State, p: PageId, j: Source)
    requires SampledNow(s, s0, p, j) && s.rings.hot == [] == s.rings.cold && !s.pages[p].ringPresent
    ensures var pg, hotNow := s.pages[p], s.pages[p].dramReads + s.pages[p].nvmReads + 1 >= 8;
            && p in s0.pages && s0.pages[p].present == pg.present && s0.pages[p].hot == pg.hot && s0.pages[p].frame == pg.frame
            && s0.rings.hot == (if hotNow && !pg.hot then [p] else []) && s0.rings.cold == (if !hotNow && pg.hot then [p] else [])
  {
    hide Worth;
  }

  lemma FewLive(s: State, hot: bool, n: nat)
    ensures LiveServed(s, hot, n) <= n
  {
    if n <= |Requested(s, hot)| { FilterShorter(Requested(s, hot)[..n], InUse(s)); }
  }

  lemma FilterShorter(xs: seq<PageId>, f: PageId -> bool)
    ensures |Filter(xs, f)| <= |xs|
  {
    if xs != [] { FilterShorter(xs[1..], f); }
  }

  // ---- the whole pass ----

  /** From the state s in which the requests have been served: k hot NVM pages are dealt with, then both tiers are cooled. */
  ghost predicate PassesBy(s: State, s': State, e: MigrationEnd, k: nat, mid: State) {
    && !e.Aborted? && LoopDone(s, 0, e, k)
    && (e.Out? ==> s' == e.state)
    && (e.Finished? ==> SweptOnce(e.state, mid, true) && SweptOnce(mid, s', false))
  }

  ghost predicate Passes(s: State, s': State) {
    exists e: MigrationEnd, k: nat, mid: State :: PassesBy(s, s', e, k, mid)
  }

  /**
   A pass that does not fail serves the requests, migrates, and then cools both tiers, DRAM first;
   it leaves the cooling out exactly when DRAM had neither a free frame nor a cold page for a hot page.
   */
  lemma PassDoes(s: State, frames: set<Frame>) returns (e: MigrationEnd, k: nat, mid: State)
    requires Inv(s, frames) && PolicyPass(s).Some?
    ensures PassesBy(Requests(s), PolicyPass(s).value, e, k, mid)
    ensures e.Out? ==> e.state.fifos.L(DramFree) == [] && e.state.fifos.L(DramCold) == []
  {
    hide Inv, MigrateLoop, PartialCool, SweptOnce, LoopDone;
    var s1 := Requests(s);
    RequestsInv(s, frames);
    k := MigrateLoopDoes(s1, 0, frames);
    MigrateLoopInv(s1, 0, frames);
    e := MigrateLoop(s1, 0);
    mid := e.state;
    if e.Finished? {
      PartialCoolSweeps(e.state, true, frames);
      PartialCoolInv(e.state, true, frames);
      mid := PartialCool(e.state, true);
      PartialCoolSweeps(mid, false, frames);
    } else {
      OutIsFull(s1, e, k);
    }
  }

  lemma OutIsFull(s: State, e: MigrationEnd, k: nat)
    requires LoopDone(s, 0, e, k) && e.Out?
    ensures e.state.fifos.L(DramFree) == [] && e.state.fifos.L(DramCold) == []
  {
  }
}
