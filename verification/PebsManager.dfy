/**
 The page manager as the program runs it: global lists, rings, clock and sweeps, updated in place.
 Every method is proved to compute the step function of the same name, and every `assert` below
 stands where the source has one.
 */
module PebsManager {
  import opened Basics
  import opened PebsState
  import opened PebsSteps
  import opened PebsInvariant
  import opened PebsPreservation
  import opened PebsMigration
  import opened PebsCooling
  import opened PebsRuns
  import opened PebsPromotion
  import opened PebsEffects
  import PebsAgeing

  class PageManager {
    const config: Config
    var pages: Pages
    var fifos: Fifos
    var hotRing: seq<PageId>
    var coldRing: seq<PageId>
    var freeRing: seq<PageId>
    var clock: nat
    var dramSweep: Sweep
    var nvmSweep: Sweep
    var index: map<Address, PageId>

    ghost function Abs(): State
      reads this
    {
      State(pages, fifos, Rings(hotRing, coldRing, freeRing), clock, dramSweep, nvmSweep, index)
    }

    ghost predicate Valid()
      reads this
    {
      Inv(Abs(), Frames(config))
    }

    /** `pebs_init`: one page structure per frame, every one on the free list of its tier. */
    constructor (c: Config)
      ensures config == c && Abs() == Init(c) && Valid()
    {
      config := c;
      pages := map[];
      fifos := Fifos(map[DramFree := [], NvmFree := []], map[]);
      hotRing, coldRing, freeRing := [], [], [];
      clock := 0;
      dramSweep, nvmSweep := Sweep(None, None, false), Sweep(None, None, false);
      index := map[];
      new;
      InitInv(c);
      NoPages(c);
      hide InvHolding, FrameNo, FirstPages, FirstHomes;
      AddDramPages();
      AddNvmPages();
    }

    method AddDramPages()
      requires pages == FirstPages(config, 0)
      requires fifos == Fifos(map[DramFree := [], NvmFree := []], FirstHomes(config, 0))
      modifies this`pages, this`fifos
      ensures pages == FirstPages(config, config.dramPages)
      ensures fifos == Fifos(map[DramFree := Enqueued(0, config.dramPages), NvmFree := []],
                             FirstHomes(config, config.dramPages))
    {
      hide FrameNo, FirstPages, FirstHomes;
      for i := 0 to config.dramPages
        invariant pages == FirstPages(config, i)
        invariant fifos == Fifos(map[DramFree := Enqueued(0, i), NvmFree := []], FirstHomes(config, i))
      {
        OneMorePage(config, i);
        pages := pages[i := BLANK_PAGE.(frame := FrameNo(config, i))];
        fifos := Enqueue(fifos, DramFree, i);
        assert fifos.lists == map[DramFree := Enqueued(0, i + 1), NvmFree := []];
      }
    }

    method AddNvmPages()
      requires pages == FirstPages(config, config.dramPages)
      requires fifos == Fifos(map[DramFree := Enqueued(0, config.dramPages), NvmFree := []],
                              FirstHomes(config, config.dramPages))
      modifies this`pages, this`fifos
      ensures pages == Init(config).pages && fifos == Init(config).fifos
    {
      hide FrameNo, FirstPages, FirstHomes;
      var n := config.dramPages;
      for i := 0 to config.nvmPages
        invariant pages == FirstPages(config, n + i)
        invariant fifos == Fifos(map[DramFree := Enqueued(0, n), NvmFree := Enqueued(n, i)], FirstHomes(config, n + i))
      {
        OneMorePage(config, n + i);
        pages := pages[n + i := BLANK_PAGE.(frame := FrameNo(config, n + i))];
        fifos := Enqueue(fifos, NvmFree, n + i);
        assert fifos.lists == map[DramFree := Enqueued(0, n), NvmFree := Enqueued(n, i + 1)];
      }
    }

    // ---- allocation ----

    /** `pebs_allocate_page` followed by the caller's mapping at va; None when both tiers are full. */
    method AllocatePage(va: Address) returns (page: Option<PageId>)
      requires Valid() && Mappable(Abs(), va)
      modifies this
      ensures Valid()
      ensures page.None? ==> Abs() == old(Abs()) && old(Abs()).FreeFrames() == 0
      ensures page.Some? ==> Allocate(old(Abs()), va) == Some(Abs()) && index == old(index)[va := page.value] && Allocated(old(Abs()), Abs(), va)
    {
      hide InvHolding, Allocated;
      AllocateIs(Abs(), va, Frames(config));
      page := None;
      var dram := true;
      if fifos.L(DramFree) == [] { dram := false; }
      if fifos.L(FreeList(dram)) != [] {
        AllocateInv(Abs(), dram, va, Frames(config));
        FreeListPage(Abs(), dram, Frames(config));
        var p := Last(fifos, FreeList(dram));
        fifos := Dequeue(fifos, FreeList(dram));
        assert pages[p].frame.dram == dram;
        assert !pages[p].present;
        pages := pages[p := pages[p].(present := true)];
        fifos := Enqueue(fifos, ColdList(dram), p);
        pages := pages[p := pages[p].(va := va)];
        index := index[va := p];
        page := Some(p);
        assert pages == old(pages)[p := old(pages)[p].(present := true, va := va)];
        assert Abs() == AllocateFrom(old(Abs()), dram, va);
      }
    }

    // ---- unmapping ----

    /** `remove_page` then `pebs_remove_page`; false when the free ring is full and the program would spin. */
    method RemovePage(p: PageId) returns (done: bool)
      requires Valid() && p in pages && pages[p].va in index && index[pages[p].va] == p
      modifies this
      ensures Valid() && pages.Keys == old(pages.Keys)
      ensures done ==> Unmap(old(Abs()), old(pages[p].va)) == Some(Abs())
      ensures !done ==> Abs() == old(Abs()) && Unmap(Abs(), pages[p].va) == None
    {
      hide InvHolding;
      ghost var s, va := Abs(), pages[p].va;
      done := |freeRing| != CAPACITY - 1;
      if done {
        UnmapInv(s, va, Frames(config));
        index := index - {pages[p].va};
        freeRing := freeRing + [p];
        pages := pages[p := pages[p].(present := false)];
        pages := pages[p := pages[p].(hot := false)];
        pages := pages[p := pages[p].(dramReads := 0, nvmReads := 0)];
        assert pages == s.pages[p := Reset(s.pages[p])];
      }
    }

    /** One turn of the page loop: the next boundary, or None if the program would spin here. */
    method UnmapPage(boundary: Address) returns (next: Option<Address>)
      requires Valid()
      modifies this
      ensures Valid() && pages.Keys == old(pages.Keys)
      ensures next.Some? ==> boundary < next.value && next.value % BASEPAGE_SIZE == boundary % BASEPAGE_SIZE
      ensures next.Some? ==> forall va: Address :: va in index <==> va in old(index) && va != boundary
      ensures next.Some? && boundary % BASEPAGE_SIZE == 0 ==> forall va: Address :: va in index ==> !(boundary < va < next.value)
      ensures boundary % BASEPAGE_SIZE != 0 ==> next.Some? && index == old(index)
      ensures next == None ==> index == old(index) && boundary in index && Unmap(Abs(), boundary) == None
      ensures forall va: Address :: va in index ==> va in old(index) && index[va] == old(index)[va]
      ensures |old(pages).Keys| < CAPACITY ==> next.Some?
    {
      hide InvHolding, Unmap;
      AlignedMappings(Abs(), Frames(config));
      if boundary % BASEPAGE_SIZE == 0 { NextMapping(index, boundary); }
      StillAligned(boundary);
      if boundary in index { LargeIsSmall(boundary); }
      if boundary in index {
        var page := index[boundary];
        IndexedPresent(Abs(), boundary, Frames(config));
        if |pages.Keys| < CAPACITY { PebsAgeing.RingsNeverOverflow(Abs(), page, boundary, Frames(config)); }
        UnmapKeys(Abs(), boundary);
        var done := RemovePage(page);
        next := if done then Some(boundary + HUGEPAGE_SIZE) else None;
      } else {
        next := Some(boundary + BASEPAGE_SIZE);
      }
    }

    /**
     The page loop of `hemem_munmap`: exactly the pages that start in the range leave the index, up to
     the page, if any, at which the free ring is full and the program would spin. From an address off the
     small pages the loop meets no page at all.
     */
    method Munmap(addr: Address, length: nat) returns (spins: Option<Address>)
      requires Valid()
      modifies this
      ensures Valid()
      ensures var end := if spins.Some? then spins.value else addr + length;
              forall va: Address :: va in index <==> va in old(index) && !(addr % BASEPAGE_SIZE == 0 && addr <= va < end)
      ensures forall va: Address :: va in index ==> index[va] == old(index)[va]
      ensures spins.Some? ==> addr <= spins.value < addr + length && spins.value in index && Unmap(Abs(), spins.value) == None
      ensures |old(pages).Keys| < CAPACITY ==> spins == None
    {
      hide Valid, Unmap;
      var boundary := addr;
      while boundary < addr + length
        invariant Valid() && pages.Keys == old(pages).Keys && boundary % BASEPAGE_SIZE == addr % BASEPAGE_SIZE && addr <= boundary
        invariant forall va: Address :: va in index <==> va in old(index) && !(addr % BASEPAGE_SIZE == 0 && addr <= va < boundary && va < addr + length)
        invariant forall va: Address :: va in index ==> index[va] == old(index)[va]
        decreases addr + length - boundary
      {
        var next := UnmapPage(boundary);
        if next == None {
          return Some(boundary);
        }
        boundary := next.value;
      }
      spins := None;
    }

    // ---- sampling ----

    /** One PERF_RECORD_SAMPLE at the huge page va. */
    method ScanSample(va: Address, j: Source)
      requires Valid()
      modifies this
      ensures Valid() && Abs() == Sample(old(Abs()), va, j)
      ensures if va in old(index) then SampledNow(old(Abs()), Abs(), old(index)[va], j) else Abs() == old(Abs())
    {
      hide InvHolding, PolicyPass, SampledNow;
      SampleIs(Abs(), va, j, Frames(config));
      StepKeepsInv(Abs(), SampleAt(va, j), Frames(config));
      if va in index {
        IndexedPresent(Abs(), va, Frames(config));
        var p := index[va];
        if pages[p].va != 0 {
          SampleIndexed(p, j);
        }
      }
    }

    method SampleIndexed(p: PageId, j: Source)
      requires p in pages
      modifies this
      ensures Abs() == SamplePage(old(Abs()), p, j)
    {
      var pg := Bump(pages[p], j);
      if pg.dramReads + pg.nvmReads >= HOT_READ_THRESHOLD {
        if !pg.hot && !pg.ringPresent {
          pg := pg.(ringPresent := true);
          hotRing := RingPut(hotRing, p);
        }
      } else {
        if pg.hot && !pg.ringPresent {
          pg := pg.(ringPresent := true);
          coldRing := RingPut(coldRing, p);
        }
      }
      pg := Aged(pg, clock);
      pages := pages[p := pg];
      if Count(pg, j) > PEBS_COOLING_THRESHOLD {
        clock := clock + 1;
        dramSweep := dramSweep.(need := true);
        nvmSweep := nvmSweep.(need := true);
      }
    }

    // ---- the policy thread ----

    /** `update_current_cool_page` */
    method UpdateCurrentCoolPage(p: PageId)
      requires ListsOk(fifos) && CursorsOk(Abs())
      modifies this`dramSweep, this`nvmSweep
      ensures Abs() == MoveCursors(old(Abs()), p)
    {
      hide ListsOk;
      if dramSweep.cursor == Some(p) {
        assert p in fifos.home && fifos.home[p] == DramHot by { OnList(fifos, DramHot, p); }
        dramSweep := dramSweep.(cursor := NextPage(fifos.L(DramHot), Some(p)));
      }
      if nvmSweep.cursor == Some(p) {
        assert p in fifos.home && fifos.home[p] == NvmHot by { OnList(fifos, NvmHot, p); }
        nvmSweep := nvmSweep.(cursor := NextPage(fifos.L(NvmHot), Some(p)));
      }
    }

    method DrainFreeRing()
      requires Valid()
      modifies this
      ensures Valid() && Abs() == DrainFree(old(Abs())) && freeRing == []
    {
      hide InvHolding;
      while freeRing != []
        invariant Valid() && DrainFree(Abs()) == DrainFree(old(Abs()))
        decreases |freeRing|
      {
        ghost var s := Abs();
        FreeOneInv(s, Frames(config));
        WaitingPage(s, Frames(config));
        var p := freeRing[0];
        freeRing := freeRing[1..];
        assert p in fifos.home;
        var list := fifos.home[p];
        UpdateCurrentCoolPage(p);
        fifos := Remove(fifos, list, p);
        if pages[p].frame.dram {
          fifos := Enqueue(fifos, DramFree, p);
        } else {
          fifos := Enqueue(fifos, NvmFree, p);
        }
        assert Abs() == FreeOne(s);
      }
    }

    /** `make_hot` */
    method MakeHot(p: PageId)
      requires p in pages && pages[p].va != 0
      requires p in fifos.home && fifos.home[p] == TempList(pages[p].frame.dram, pages[p].hot)
      modifies this`pages, this`fifos
      ensures Abs() == MakeTemp(old(Abs()), p, true)
    {
      assert pages[p].va != 0;
      if pages[p].hot {
        assert pages[p].frame.dram ==> fifos.home[p] == DramHot;
        assert !pages[p].frame.dram ==> fifos.home[p] == NvmHot;
        return;
      }
      if pages[p].frame.dram {
        assert fifos.home[p] == DramCold;
        fifos := Remove(fifos, DramCold, p);
        pages := pages[p := pages[p].(hot := true)];
        fifos := Enqueue(fifos, DramHot, p);
      } else {
        assert fifos.home[p] == NvmCold;
        fifos := Remove(fifos, NvmCold, p);
        pages := pages[p := pages[p].(hot := true)];
        fifos := Enqueue(fifos, NvmHot, p);
      }
    }

    /** `make_cold` */
    method MakeCold(p: PageId)
      requires p in pages && pages[p].va != 0
      requires p in fifos.home && fifos.home[p] == TempList(pages[p].frame.dram, pages[p].hot)
      modifies this`pages, this`fifos
      ensures Abs() == MakeTemp(old(Abs()), p, false)
    {
      assert pages[p].va != 0;
      if !pages[p].hot {
        assert pages[p].frame.dram ==> fifos.home[p] == DramCold;
        assert !pages[p].frame.dram ==> fifos.home[p] == NvmCold;
        return;
      }
      if pages[p].frame.dram {
        assert fifos.home[p] == DramHot;
        fifos := Remove(fifos, DramHot, p);
        pages := pages[p := pages[p].(hot := false)];
        fifos := Enqueue(fifos, DramCold, p);
      } else {
        assert fifos.home[p] == NvmHot;
        fifos := Remove(fifos, NvmHot, p);
        pages := pages[p := pages[p].(hot := false)];
        fifos := Enqueue(fifos, NvmCold, p);
      }
    }

    /** The loop over the hot ring, and (hot == false) the loop over the cold ring. */
    method ServeRequests(hot: bool, threshold: nat)
      requires Valid() && freeRing == []
      modifies this
      ensures Valid() && freeRing == [] && Abs() == ServeRing(old(Abs()), hot, threshold)
    {
      hide Valid, Serve;
      var served := 0;
      while (if hot then hotRing else coldRing) != [] && served < threshold
        invariant Valid() && freeRing == [] && served <= threshold
        invariant ServeRing(Abs(), hot, threshold - served) == ServeRing(old(Abs()), hot, threshold)
        decreases |if hot then hotRing else coldRing|
      {
        ghost var s := Abs();
        var live := ServeNext(hot);
        served := if live then served + 1 else served;
      }
    }

    /** One turn of that loop; whether the request was for a page still in use. */
    method ServeNext(hot: bool) returns (live: bool)
      requires Valid() && freeRing == [] && Ring(Abs(), hot) != []
      modifies this
      ensures Valid() && freeRing == [] && live == At(old(pages), Ring(old(Abs()), hot)[0]).present
      ensures Abs() == Serve(PopRing(old(Abs()), hot), Ring(old(Abs()), hot)[0], hot) && Ring(Abs(), hot) == Ring(old(Abs()), hot)[1..]
    {
      hide InvHolding;
      ghost var s := Abs();
      PopRingInv(s, hot, Frames(config));
      RequestPage(s, hot, Frames(config));
      var p := if hot then hotRing[0] else coldRing[0];
      if hot { hotRing := hotRing[1..]; } else { coldRing := coldRing[1..]; }
      ghost var s1 := Abs();
      assert s1 == PopRing(s, hot);
      ServeInv(s1, p, hot, Frames(config));
      live := pages[p].present;
      if !live {
        // the page has been freed
        assert pages[p].frame.dram ==> fifos.home[p] == DramFree;
        assert !pages[p].frame.dram ==> fifos.home[p] == NvmFree;
      } else {
        UpdateCurrentCoolPage(p);
        pages := pages[p := pages[p].(ringPresent := false)];
        if hot { MakeHot(p); } else { MakeCold(p); }
      }
      assert Abs() == Serve(s1, p, hot);
    }

    /** `pebs_migrate_up` and the partner's update: p moves into np's frame, np keeps p's old one. */
    method SwapInto(p: PageId, np: PageId)
      requires p in pages && np in pages && p != np && NoSharing(Remap(pages, p, pages[np].frame))
      modifies this`pages
      ensures pages == SwapFrames(old(pages), p, np)
    {
      var oldFrame := pages[p].frame;
      pages := Remap(pages, p, pages[np].frame);
      assert NoSharing(pages);
      pages := TakeOver(pages, np, oldFrame);
    }

    /** The migration loop. Out: left through `out`; Failed: the `np != NULL` assertion fails. */
    method MigrateHotPages() returns (exit: LoopExit)
      requires Valid() && freeRing == []
      modifies this
      ensures exit == Failed <==> MigrateLoop(old(Abs()), 0) == Aborted
      ensures exit == AtEnd ==> Valid() && MigrateLoop(old(Abs()), 0) == Finished(Abs())
      ensures exit == ViaOut ==> Valid() && MigrateLoop(old(Abs()), 0) == Out(Abs())
      ensures LoopFates(old(Abs()), MigrateLoop(old(Abs()), 0))
    {
      hide InvHolding, Promote, Demote, PopHot, PutCold, PutBack, LoopFates;
      MigrationFates(Abs(), Frames(config));
      var migrated: nat := 0;
      while migrated < PEBS_KSWAPD_MIGRATE_RATE
        invariant Valid() && freeRing == []
        invariant MigrateLoop(Abs(), migrated) == MigrateLoop(old(Abs()), 0)
        decreases |fifos.L(NvmHot)|
      {
        ghost var s := Abs();
        MigrateOneInv(s, Frames(config));
        MigrateOneShrinks(s);
        if fifos.L(NvmHot) == [] {
          return AtEnd;
        }
        PopHotInv(s, Frames(config));
        var p := TakeHot();
        if pages[p].dramReads + pages[p].nvmReads < HOT_READ_THRESHOLD {
          SendCold(p);
        } else {
          var placed := PlaceHot(p);
          if placed == Failed { return Failed; }
          if placed == ViaOut { return ViaOut; }
          migrated := migrated + HUGEPAGE_SIZE;
        }
      }
      return AtEnd;
    }

    /** Take the oldest hot NVM page, moving the NVM cursor off it. */
    method TakeHot() returns (p: PageId)
      requires fifos.L(NvmHot) != []
      modifies this`fifos, this`nvmSweep
      ensures p == Last(old(fifos), NvmHot) && Abs() == PopHot(old(Abs()))
    {
      p := Last(fifos, NvmHot);
      fifos := Dequeue(fifos, NvmHot);
      if nvmSweep.cursor == Some(p) {
        nvmSweep := nvmSweep.(cursor := if fifos.L(NvmHot) == [] then None else Some(fifos.L(NvmHot)[0]));
      }
    }

    method SendCold(p: PageId)
      requires p in pages
      modifies this`pages, this`fifos
      ensures Abs() == PutCold(old(Abs()), p)
    {
      pages := pages[p := pages[p].(hot := false)];
      fifos := Enqueue(fifos, NvmCold, p);
    }

    /** The two tries at finding a DRAM frame for the held page p. */
    method PlaceHot(p: PageId) returns (placed: LoopExit)
      requires InvHolding(Abs(), Some(p), Frames(config)) && p in pages && freeRing == []
      requires !HasCooled(pages[p])
      modifies this`pages, this`fifos
      ensures placed == Failed <==> Place(old(Abs()), p) == NoFrame
      ensures placed == ViaOut ==> Place(old(Abs()), p) == DramAllHot(Abs())
      ensures placed == AtEnd ==> Place(old(Abs()), p) == Promoted(Abs())
    {
      hide InvHolding, Promote, Demote, PutBack;
      ghost var s := Abs();
      var tries := 0;
      while tries < 2
        invariant tries <= 1
        invariant p in pages && freeRing == [] && InvHolding(Abs(), Some(p), Frames(config))
        invariant tries == 0 ==> Abs() == s
        invariant tries == 1 ==>
          && s.fifos.L(DramFree) == [] && s.fifos.L(DramCold) != [] && s.fifos.L(NvmFree) != []
          && Abs() == Demote(s) && fifos.L(DramFree) != []
      {
        if fifos.L(DramFree) != [] {
          PromoteHere(p);
          return AtEnd;
        }
        if fifos.L(DramCold) == [] {
          assert Abs() == s;
          fifos := Enqueue(fifos, NvmHot, p);
          assert Abs() == PutBack(s, p) by { PutBackDef(s, p); }
          return ViaOut;
        }
        if fifos.L(NvmFree) == [] {
          return Failed;
        }
        DemoteInv(s, p, Frames(config));
        DemoteKeeps(s, p, Frames(config));
        DemoteHere(p);
        tries := tries + 1;
      }
      assert false;
    }

    /** Copy the held page p up into the oldest free DRAM frame. */
    method PromoteHere(p: PageId)
      requires InvHolding(Abs(), Some(p), Frames(config)) && p in pages && fifos.L(DramFree) != []
      modifies this`pages, this`fifos
      ensures Abs() == Promote(old(Abs()), p)
    {
      hide InvHolding, NoSharing, Frames, SwapFrames;
      var np := Last(fifos, DramFree);
      PromotionPair(Abs(), p, Frames(config));
      MidSwapNoSharing(Abs(), Some(p), p, np, Frames(config));
      FrameBounds(config, pages[p].frame);
      FrameBounds(config, pages[np].frame);
      fifos := Dequeue(fifos, DramFree);
      assert !pages[np].present;
      assert !pages[p].frame.dram && InNvm(config, pages[p].frame) && InDram(config, pages[np].frame);
      SwapInto(p, np);
      fifos := Enqueue(fifos, DramHot, p);
      fifos := Enqueue(fifos, NvmFree, np);
    }

    /** Copy the oldest cold DRAM page down into the oldest free NVM frame; p is the page waiting for its frame. */
    method DemoteHere(ghost p: PageId)
      requires InvHolding(Abs(), Some(p), Frames(config)) && freeRing == []
      requires fifos.L(DramCold) != [] && fifos.L(NvmFree) != []
      modifies this`pages, this`fifos
      ensures Abs() == Demote(old(Abs()))
    {
      hide InvHolding, NoSharing, Frames, SwapFrames;
      var cp, np := Last(fifos, DramCold), Last(fifos, NvmFree);
      DemotionPair(Abs(), p, Frames(config));
      MidSwapNoSharing(Abs(), Some(p), cp, np, Frames(config));
      FrameBounds(config, pages[cp].frame);
      FrameBounds(config, pages[np].frame);
      fifos := Dequeue(fifos, DramCold);
      assert fifos.L(NvmFree) == old(fifos).L(NvmFree);
      fifos := Dequeue(fifos, NvmFree);
      assert !pages[np].present;
      assert pages[cp].frame.dram && InDram(config, pages[cp].frame) && InNvm(config, pages[np].frame);
      SwapInto(cp, np);
      fifos := Enqueue(fifos, NvmCold, cp);
      fifos := Enqueue(fifos, DramFree, np);
    }

    /** `partial_cool` */
    method CoolTier(dram: bool)
      requires Valid()
      modifies this
      ensures Valid() && Abs() == PartialCool(old(Abs()), dram) && SweptOnce(old(Abs()), Abs(), dram)
    {
      hide InvHolding, CoolOne, SweptOnce;
      PartialCoolSweeps(Abs(), dram, Frames(config));
      PartialCoolInv(Abs(), dram, Frames(config));
      if !(if dram then dramSweep else nvmSweep).need { return; }
      BeginCoolInv(Abs(), dram, Frames(config));
      ghost var s0 := BeginCool(Abs(), dram);
      var hot := fifos.L(HotList(dram));
      if (if dram then dramSweep else nvmSweep).start == None && hot != [] {
        if dram { dramSweep := dramSweep.(start := Some(hot[|hot| - 1])); }
        else { nvmSweep := nvmSweep.(start := Some(hot[|hot| - 1])); }
      }
      assert Abs() == s0;
      var i := 0;
      while i < COOLING_PAGES
        invariant i <= COOLING_PAGES && Valid()
        invariant CoolLoop(Abs(), dram, COOLING_PAGES - i) == CoolLoop(s0, dram, COOLING_PAGES)
      {
        var next := NextPage(fifos.L(HotList(dram)), (if dram then dramSweep else nvmSweep).cursor);
        if next == None { return; }
        NextPageInList(fifos.L(HotList(dram)), (if dram then dramSweep else nvmSweep).cursor);
        CoolOneInv(Abs(), dram, next.value, Frames(config));
        CoolPage(dram, next.value);
        i := i + 1;
      }
    }

    /** The body of `partial_cool`'s loop. */
    method CoolPage(dram: bool, p: PageId)
      requires Valid() && p in fifos.L(HotList(dram))
      modifies this
      ensures Abs() == CoolOne(old(Abs()), dram, p)
    {
      HotPage(Abs(), dram, p, Frames(config));
      hide InvHolding;
      var w := if dram then dramSweep else nvmSweep;
      assert pages[p].frame.dram == dram;
      var pg := pages[p];
      if Decayed(pg.dramReads, pg.localClock, clock) + Decayed(pg.nvmReads, pg.localClock, clock) < HOT_READ_THRESHOLD {
        pg := pg.(hot := false);
      }
      if w.start == Some(p) {
        w := w.(start := None, need := false);
      }
      if !pg.hot {
        w := w.(cursor := NextLink(fifos.L(HotList(dram)), p));
        pages := pages[p := pg];
        fifos := Remove(fifos, HotList(dram), p);
        fifos := Enqueue(fifos, ColdList(dram), p);
      } else {
        w := w.(cursor := Some(p));
      }
      if dram { dramSweep := w; } else { nvmSweep := w; }
    }

    /** One iteration of `pebs_policy_thread`; true when the `np != NULL` assertion fails. */
    method PolicyThreadPass() returns (aborted: bool)
      requires Valid()
      modifies this
      ensures aborted <==> Jammed(Requests(old(Abs())))
      ensures !aborted ==> Valid() && PolicyPass(old(Abs())) == Some(Abs()) && Passes(Requests(old(Abs())), Abs())
    {
      PassOk(Abs(), Frames(config));
      hide Passes, InvHolding, DrainFree, ServeRing, MigrateLoop, PartialCool, Jammed;
      PolicyPassInv(Abs(), Frames(config));
      DrainFreeRing();
      ServeRequests(true, HOT_RING_REQS_THRESHOLD);
      ServeRequests(false, COLD_RING_REQS_THRESHOLD);
      var exit := MigrateHotPages();
      aborted := exit == Failed;
      if exit == AtEnd {
        CoolTier(true);
        CoolTier(false);
      }
    }
  }

  lemma PassOk(s: State, frames: set<Frame>)
    requires Inv(s, frames)
    ensures PolicyPass(s).Some? ==> Passes(Requests(s), PolicyPass(s).value)
  {
    hide Inv, PolicyPass, PassesBy, Requests;
    if PolicyPass(s).Some? {
      var e, k, mid := PassDoes(s, frames);
    }
  }

  lemma NoPages(c: Config)
    ensures FirstPages(c, 0) == map[] && FirstHomes(c, 0) == map[]
  {
  }

  datatype LoopExit = AtEnd | ViaOut | Failed

  /** The device bounds that `hemem_migrate_up` and `hemem_migrate_down` assert of an offset. */
  predicate InDram(c: Config, f: Frame) {
    f.dram && c.dramOffset <= f.offset && f.offset - c.dramOffset + HUGEPAGE_SIZE <= c.dramPages * HUGEPAGE_SIZE
  }

  predicate InNvm(c: Config, f: Frame) {
    !f.dram && c.nvmOffset <= f.offset && f.offset - c.nvmOffset + HUGEPAGE_SIZE <= c.nvmPages * HUGEPAGE_SIZE
  }

  lemma FrameBounds(c: Config, f: Frame)
    requires f in Frames(c)
    ensures if f.dram then InDram(c, f) else InNvm(c, f)
  {
    var i: PageId :| i < c.dramPages + c.nvmPages && f == FrameNo(c, i);
  }

  lemma PutBackDef(s: State, p: PageId)
    ensures PutBack(s, p) == s.(fifos := Enqueue(s.fifos, NvmHot, p))
  {
  }

  lemma PromotionPair(s: State, p: PageId, frames: set<Frame>)
    requires InvHolding(s, Some(p), frames) && p in s.pages && s.fifos.L(DramFree) != []
    ensures var np := Last(s.fifos, DramFree);
            && np in s.pages && np != p && !s.pages[np].present && s.pages[np].frame.dram && !s.pages[p].frame.dram
            && s.pages[p].frame in frames && s.pages[np].frame in frames
  {
    hide ListsOk, RingsOk, IndexOk, CursorsOk;
    assert PageOkAt(s, Some(p), p);
    PromoteLists(s, p);
    assert PageOkAt(s, Some(p), Last(s.fifos, DramFree));
  }

  lemma DemotionPair(s: State, p: PageId, frames: set<Frame>)
    requires InvHolding(s, Some(p), frames) && s.rings.free == []
    requires s.fifos.L(DramCold) != [] && s.fifos.L(NvmFree) != []
    ensures var cp, np := Last(s.fifos, DramCold), Last(s.fifos, NvmFree);
            && cp in s.pages && np in s.pages && np != cp && !s.pages[np].present
            && !s.pages[np].frame.dram && s.pages[cp].frame.dram
            && s.pages[cp].frame in frames && s.pages[np].frame in frames
  {
    hide ListsOk, RingsOk, IndexOk, CursorsOk;
    DemoteLists(s);
    assert PageOkAt(s, Some(p), Last(s.fifos, DramCold)) && PageOkAt(s, Some(p), Last(s.fifos, NvmFree));
  }

  lemma HotPage(s: State, dram: bool, p: PageId, frames: set<Frame>)
    requires Inv(s, frames) && p in s.fifos.L(HotList(dram))
    ensures p in s.pages && s.pages[p].frame.dram == dram
  {
    assert ListOk(s.fifos, HotList(dram)) && PageOkAt(s, None, p);
  }

  lemma FreeListPage(s: State, dram: bool, frames: set<Frame>)
    requires Inv(s, frames) && s.fifos.L(FreeList(dram)) != []
    ensures var p := Last(s.fifos, FreeList(dram));
            p in s.pages && s.pages[p].frame.dram == dram && !s.pages[p].present
  {
    hide FramesOk, IndexOk, RingsOk, CursorsOk;
    DequeueFacts(s.fifos, FreeList(dram));
    assert PageOkAt(s, None, Last(s.fifos, FreeList(dram)));
  }

  lemma AlignedMappings(s: State, frames: set<Frame>)
    requires Inv(s, frames)
    ensures forall va :: va in s.index ==> va % HUGEPAGE_SIZE == 0
  {
    forall va | va in s.index ensures va % HUGEPAGE_SIZE == 0 { assert MappingOk(s, va); }
  }

  /** The next multiple of the small page size is no nearer than that size; of the large one, than the large size. */
  lemma Spaced(b: Address, va: Address)
    requires b % BASEPAGE_SIZE == 0 && va % HUGEPAGE_SIZE == 0 && b < va
    ensures b + BASEPAGE_SIZE <= va && (b % HUGEPAGE_SIZE == 0 ==> b + HUGEPAGE_SIZE <= va)
  {
    var j, k := b / BASEPAGE_SIZE, va / HUGEPAGE_SIZE;
    assert b == 4096 * j && va == 2097152 * k;
  }

  lemma UnmapKeys(s: State, va: Address)
    ensures Unmap(s, va).Some? ==> Unmap(s, va).value.index == s.index - {va}
  {
  }

  lemma StillAligned(b: Address)
    ensures (b + BASEPAGE_SIZE) % BASEPAGE_SIZE == b % BASEPAGE_SIZE && (b + HUGEPAGE_SIZE) % BASEPAGE_SIZE == b % BASEPAGE_SIZE
  {
    var j, r := b / BASEPAGE_SIZE, b % BASEPAGE_SIZE;
    assert b == 4096 * j + r && b + HUGEPAGE_SIZE == 4096 * (j + 512) + r;
  }

  lemma LargeIsSmall(b: Address)
    requires b % HUGEPAGE_SIZE == 0
    ensures b % BASEPAGE_SIZE == 0
  {
    var k := b / HUGEPAGE_SIZE;
    assert b == 4096 * (512 * k);
  }

  /** No mapping lies strictly between the loop's boundary and the next one. */
  lemma NextMapping(index: map<Address, PageId>, b: Address)
    requires b % BASEPAGE_SIZE == 0 && forall va :: va in index ==> va % HUGEPAGE_SIZE == 0
    ensures forall va :: va in index && b < va ==> b + BASEPAGE_SIZE <= va
    ensures b in index ==> b % HUGEPAGE_SIZE == 0 && forall va :: va in index && b < va ==> b + HUGEPAGE_SIZE <= va
  {
    forall va | va in index && b < va
      ensures b + BASEPAGE_SIZE <= va && (b in index ==> b + HUGEPAGE_SIZE <= va)
    {
      Spaced(b, va);
    }
  }

  lemma OnList(f: Fifos, l: ListId, p: PageId)
    requires ListsOk(f) && p in f.L(l)
    ensures p in f.home && f.home[p] == l
  {
    assert ListOk(f, l);
  }

  lemma WaitingPage(s: State, frames: set<Frame>)
    requires Inv(s, frames) && s.rings.free != []
    ensures s.rings.free[0] in s.fifos.home && s.rings.free[0] in s.pages && ListsOk(s.fifos) && CursorsOk(s)
  {
    var p := s.rings.free[0];
    assert p in s.rings.free;
    assert EntryOk(s, p) && PageOkAt(s, None, p);
  }

  lemma RequestPage(s: State, hot: bool, frames: set<Frame>)
    requires Inv(s, frames) && s.rings.free == [] && Ring(s, hot) != []
    ensures var p := Ring(s, hot)[0];
            && p in s.pages && p in s.fifos.home && s.pages[p].va != 0 && ListsOk(s.fifos) && CursorsOk(s)
            && (s.pages[p].present ==> s.fifos.home[p] == TempList(s.pages[p].frame.dram, s.pages[p].hot))
            && (!s.pages[p].present ==> s.fifos.home[p] == FreeList(s.pages[p].frame.dram))
  {
    var p := Ring(s, hot)[0];
    assert p in Ring(s, hot);
    assert EntryOk(s, p) && PageOkAt(s, None, p);
  }
}
