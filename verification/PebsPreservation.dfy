/** Every step of the page manager preserves the invariant. */
module PebsPreservation {
  import opened Basics
  import opened Bits
  import opened PebsState
  import opened PebsSteps
  import opened PebsInvariant

  // ---- moving a page between lists ----

  lemma RelistFacts(f: Fifos, from: ListId, to: ListId, p: PageId)
    requires ListsOk(f) && p in f.home && f.home[p] == from && from != to
    ensures ListsOk(Relist(f, from, to, p))
    ensures Relist(f, from, to, p).home == f.home[p := to]
    ensures forall l: ListId, q :: q != p ==> (q in Relist(f, from, to, p).L(l) <==> q in f.L(l))
  {
    hide NoDup, Without;
    assert ListOk(f, from) && ListOk(f, to) && HomeOk(f, p);
    WithoutFacts(f.L(from), p);
    RemoveOk(f, from, p);
    var f1 := Remove(f, from, p);
    EnqueueOk(f1, to, p);
    hide ListsOk;
    assert Enqueue(f1, to, p).home == f.home[p := to];
  }

  lemma DequeueFacts(f: Fifos, l: ListId)
    requires ListsOk(f) && f.L(l) != []
    ensures Last(f, l) in f.home && f.home[Last(f, l)] == l && Last(f, l) in f.L(l)
    ensures ListsOk(Dequeue(f, l))
    ensures forall k: ListId, q :: q != Last(f, l) ==> (q in Dequeue(f, l).L(k) <==> q in f.L(k))
  {
    hide NoDup, Without;
    DequeueIsRemove(f, l);
    DequeueOk(f, l);
    assert ListOk(f, l);
    WithoutFacts(f.L(l), Last(f, l));
  }

  /** `update_current_cool_page` moves a cursor off p onto another page of its hot list, or to NULL. */
  lemma MoveCursorOk(w: Sweep, hot: seq<PageId>, p: PageId)
    requires NoDup(hot) && CursorOk(w, hot)
    ensures CursorOk(MoveCursor(w, hot, p), hot) && MoveCursor(w, hot, p).cursor != Some(p)
    ensures StepsOff(w, MoveCursor(w, hot, p), hot, p)
  {
  }

  /** A cursor on p moves on to the page before it on the list, and is null if p is the first; another cursor stays. */
  ghost predicate StepsOff(w: Sweep, w': Sweep, hot: seq<PageId>, p: PageId) {
    && w' == w.(cursor := w'.cursor)
    && (w.cursor != Some(p) ==> w' == w)
    && (w.cursor == Some(p) ==> forall i :: 0 <= i < |hot| && hot[i] == p ==> w'.cursor == if i == 0 then None else Some(hot[i - 1]))
  }

  lemma CursorsAfterRelist(s: State, s': State, from: ListId, to: ListId, p: PageId)
    requires ListsOk(s.fifos) && p in s.fifos.home && s.fifos.home[p] == from && from != to
    requires s'.fifos == Relist(s.fifos, from, to, p) && CursorsOk(s)
    requires s'.dramSweep == MoveCursor(s.dramSweep, s.fifos.L(DramHot), p)
    requires s'.nvmSweep == MoveCursor(s.nvmSweep, s.fifos.L(NvmHot), p)
    ensures CursorsOk(s')
  {
    hide Relist, NoDup, NextPage, MoveCursor;
    assert ListOk(s.fifos, DramHot) && ListOk(s.fifos, NvmHot);
    MoveCursorOk(s.dramSweep, s.fifos.L(DramHot), p);
    MoveCursorOk(s.nvmSweep, s.fifos.L(NvmHot), p);
    RelistFacts(s.fifos, from, to, p);
  }

  // ---- allocation and unmapping ----

  lemma AllocateInv(s: State, dram: bool, va: Address, frames: set<Frame>)
    requires Inv(s, frames) && s.fifos.L(FreeList(dram)) != [] && Mappable(s, va)
    ensures Inv(AllocateFrom(s, dram, va), frames)
  {
    hide ListsOk, FramesOk, NoDup, Dequeue, Enqueue, IndexOk, CursorsOk;
    var p := Last(s.fifos, FreeList(dram));
    var s' := AllocateFrom(s, dram, va);
    AllocateLists(s, dram, va);
    assert PageOkAt(s, None, p) && EntryOk(s, p);
    RingsStep(s, s', p);
    hide RingsOk;
    hide PagesOk;
    FramesFrame(s, s', {p}, frames);
    PagesFrame(s, None, s', None, {p});
    IndexAfterAllocate(s, s', p, va);
  }

  lemma IndexAfterAllocate(s: State, s': State, p: PageId, va: Address)
    requires IndexOk(s) && SameBut(s, s', {p}) && p in s.pages && !s.pages[p].present && Mappable(s, va)
    requires s'.index == s.index[va := p] && s'.pages[p].va == va && s'.pages[p].present
    ensures IndexOk(s')
  {
    forall a: Address ensures MappingOk(s', a) { assert MappingOk(s, a); }
    forall q: PageId ensures IndexedOk(s', q) { assert IndexedOk(s, q); }
  }

  lemma AllocateLists(s: State, dram: bool, va: Address)
    requires ListsOk(s.fifos) && CursorsOk(s) && s.fifos.L(FreeList(dram)) != []
    ensures var p := Last(s.fifos, FreeList(dram)); var s' := AllocateFrom(s, dram, va);
            && p in s.fifos.home && s.fifos.home[p] == FreeList(dram)
            && ListsOk(s'.fifos) && CursorsOk(s') && s'.fifos.home == s.fifos.home[p := ColdList(dram)]
  {
    var l, p := FreeList(dram), Last(s.fifos, FreeList(dram));
    DequeueFacts(s.fifos, l);
    DequeueIsRemove(s.fifos, l);
    RelistFacts(s.fifos, l, ColdList(dram), p);
  }

  lemma UnmapInv(s: State, va: Address, frames: set<Frame>)
    requires Inv(s, frames) && Unmap(s, va).Some?
    ensures Inv(Unmap(s, va).value, frames)
  {
    if va in s.index {
      var p := s.index[va];
      var s' := Unmap(s, va).value;
      assert MappingOk(s, va) && PageOkAt(s, None, p) && IndexedOk(s, p);
      AppendFacts(s.rings.free, p);
      hide ListsOk, FramesOk, NoDup, IndexOk;
      assert EntryOk(s, p);
      RingsStep(s, s', p);
      hide RingsOk;
      FramesFrame(s, s', {p}, frames);
      PagesFrame(s, None, s', None, {p});
      IndexAfterUnmap(s, s', p, va);
    }
  }

  lemma IndexAfterUnmap(s: State, s': State, p: PageId, va: Address)
    requires IndexOk(s) && SameBut(s, s', {p}) && va in s.index && s.index[va] == p
    requires s'.index == s.index - {va} && p in s.pages && !s'.pages[p].present
    ensures IndexOk(s')
  {
    assert MappingOk(s, va);
    forall a: Address ensures MappingOk(s', a) { assert MappingOk(s, a); }
    forall q: PageId ensures IndexedOk(s', q) { assert IndexedOk(s, q); }
  }

  lemma AppendFacts(r: seq<PageId>, p: PageId)
    requires NoDup(r) && p !in r
    ensures NoDup(r + [p]) && forall q :: q in r + [p] <==> q in r || q == p
  {
  }

  // ---- sampling ----

  lemma ShrHalves(x: nat, k: nat)
    requires k > 0
    ensures Shr(x, k) <= x / 2
  {
  }

  lemma RingPutFacts(r: seq<PageId>, p: PageId)
    requires NoDup(r) && p !in r
    ensures NoDup(RingPut(r, p)) && p in RingPut(r, p)
    ensures forall q :: q in RingPut(r, p) ==> q in r || q == p
  {
  }

  /** After a sample the page is up to date, so a counter one over the threshold means the clock ticked. */
  lemma SampledClock(pg: Page, j: Source, now: nat)
    requires ClockOk(pg, now) && pg.present
    ensures ClockOk(Sampled(pg, j, now), if Ticks(pg, j, now) then now + 1 else now)
  {
    if pg.localClock < now {
      ShrHalves(Bump(pg, j).dramReads, now - pg.localClock);
      ShrHalves(Bump(pg, j).nvmReads, now - pg.localClock);
    }
  }

  lemma SamplePages(s: State, p: PageId, j: Source)
    requires PagesOk(s, None) && p in s.pages && s.pages[p].present
    ensures PagesOk(SamplePage(s, p, j), None)
  {
    var s' := SamplePage(s, p, j);
    forall q: PageId ensures PageOkAt(s', None, q) {
      assert PageOkAt(s, None, q);
      if q == p { SampledClock(s.pages[p], j, s.clock); }
    }
  }

  lemma SampleRings(s: State, p: PageId, j: Source)
    requires RingsOk(s) && p in s.pages && s.pages[p].va != 0
    ensures RingsOk(SamplePage(s, p, j))
  {
    var s', b := SamplePage(s, p, j), Bump(s.pages[p], j);
    assert EntryOk(s, p);
    if WantsHot(b) { RingPutFacts(s.rings.hot, p); }
    if WantsCold(b) { RingPutFacts(s.rings.cold, p); }
    hide NoDup, RingPut;
    forall q: PageId ensures EntryOk(s', q) { assert EntryOk(s, q); }
  }

  lemma SampleInv(s: State, p: PageId, j: Source, frames: set<Frame>)
    requires Inv(s, frames) && p in s.pages && s.pages[p].present
    ensures Inv(SamplePage(s, p, j), frames)
  {
    var s' := SamplePage(s, p, j);
    assert IndexedOk(s, p) && MappingOk(s, s.pages[p].va);
    SamplePages(s, p, j);
    SampleRings(s, p, j);
    hide ListsOk, FramesOk, PagesOk, RingsOk, File;
    IndexFrame(s, s', {p});
    FramesFrame(s, s', {p}, frames);
  }

  // ---- the free ring ----

  lemma PopFacts(r: seq<PageId>)
    requires NoDup(r) && r != []
    ensures NoDup(r[1..]) && r[0] in r && forall q :: q in r[1..] <==> q in r && q != r[0]
  {
    assert r == [r[0]] + r[1..];
  }

  lemma FreeOneInv(s: State, frames: set<Frame>)
    requires Inv(s, frames) && s.rings.free != []
    ensures Inv(FreeOne(s), frames)
  {
    var p := s.rings.free[0];
    PopFacts(s.rings.free);
    assert EntryOk(s, p) && PageOkAt(s, None, p);
    var from, to := s.fifos.home[p], FreeList(s.pages[p].frame.dram);
    var s' := FreeOne(s);
    hide NoDup, Relist, MoveCursor;
    RelistFacts(s.fifos, from, to, p);
    CursorsAfterRelist(s, s', from, to, p);
    hide ListsOk, IndexOk, FramesOk, CursorsOk, PagesOk;
    RingsStep(s, s', p);
    hide RingsOk;
    StepInv(s, None, s', None, {p}, frames);
  }

  lemma DrainFreeInv(s: State, frames: set<Frame>)
    requires Inv(s, frames)
    ensures Inv(DrainFree(s), frames) && DrainFree(s).rings.free == []
    decreases |s.rings.free|
  {
    if s.rings.free != [] {
      hide Inv;
      FreeOneInv(s, frames);
      DrainFreeInv(FreeOne(s), frames);
    }
  }

  // ---- hot and cold requests ----

  lemma PopRingInv(s: State, hot: bool, frames: set<Frame>)
    requires Inv(s, frames) && Ring(s, hot) != []
    ensures Inv(PopRing(s, hot), frames)
    ensures Ring(s, hot)[0] in s.pages && Ring(s, hot)[0] !in PopRing(s, hot).rings.hot
    ensures Ring(s, hot)[0] !in PopRing(s, hot).rings.cold
  {
    var p := Ring(s, hot)[0];
    PopFacts(Ring(s, hot));
    var s' := PopRing(s, hot);
    hide NoDup;
    assert EntryOk(s, p);
    forall q: PageId ensures EntryOk(s', q) { assert EntryOk(s, q); }
    hide ListsOk, IndexOk, FramesOk, CursorsOk, RingsOk, PagesOk;
    StepInv(s, None, s', None, {}, frames);
  }

  lemma MoveCursorsOk(s: State, p: PageId)
    requires ListsOk(s.fifos) && CursorsOk(s)
    ensures CursorsOk(MoveCursors(s, p))
    ensures MoveCursors(s, p).dramSweep.cursor != Some(p) && MoveCursors(s, p).nvmSweep.cursor != Some(p)
    ensures StepsOff(s.dramSweep, MoveCursors(s, p).dramSweep, s.fifos.L(DramHot), p)
    ensures StepsOff(s.nvmSweep, MoveCursors(s, p).nvmSweep, s.fifos.L(NvmHot), p)
  {
    hide NoDup, MoveCursor, StepsOff;
    assert ListOk(s.fifos, DramHot) && ListOk(s.fifos, NvmHot);
    MoveCursorOk(s.dramSweep, s.fifos.L(DramHot), p);
    MoveCursorOk(s.nvmSweep, s.fifos.L(NvmHot), p);
  }

  lemma ServeLists(s: State, p: PageId, to: bool)
    requires ListsOk(s.fifos) && CursorsOk(s) && p in s.pages && p in s.fifos.home && s.pages[p].present
    requires s.fifos.home[p] == TempList(s.pages[p].frame.dram, s.pages[p].hot)
    ensures ListsOk(Serve(s, p, to).fifos) && CursorsOk(Serve(s, p, to))
    ensures Serve(s, p, to).fifos.home == s.fifos.home[p := TempList(s.pages[p].frame.dram, to)]
  {
    var s', dram := Serve(s, p, to), s.pages[p].frame.dram;
    hide NoDup, Relist, MoveCursor;
    if s.pages[p].hot == to {
      MoveCursorsOk(s, p);
    } else {
      RelistFacts(s.fifos, TempList(dram, !to), TempList(dram, to), p);
      CursorsAfterRelist(s, s', TempList(dram, !to), TempList(dram, to), p);
    }
  }

  lemma ServeEffect(s: State, p: PageId, to: bool)
    requires p in s.pages && s.pages[p].present
    ensures var s' := Serve(s, p, to);
            && s'.pages == s.pages[p := s.pages[p].(ringPresent := false, hot := to)]
            && s'.rings == s.rings && s'.clock == s.clock && s'.index == s.index
  {
    hide Relist, MoveCursor;
  }

  lemma ServeLiveInv(s: State, p: PageId, to: bool, frames: set<Frame>)
    requires Inv(s, frames) && p in s.pages && p !in s.rings.hot && p !in s.rings.cold && s.pages[p].present
    ensures Inv(Serve(s, p, to), frames)
  {
    hide NoDup, ListsOk, IndexOk, FramesOk, CursorsOk, Serve;
    assert PageOkAt(s, None, p) && EntryOk(s, p);
    hide PagesOk;
    ServeEffect(s, p, to);
    ServeLists(s, p, to);
    RingsStep(s, Serve(s, p, to), p);
    hide RingsOk;
    StepInv(s, None, Serve(s, p, to), None, {p}, frames);
  }

  lemma ServeInv(s: State, p: PageId, to: bool, frames: set<Frame>)
    requires Inv(s, frames) && p in s.pages && p !in s.rings.hot && p !in s.rings.cold
    ensures Inv(Serve(s, p, to), frames)
  {
    hide Inv;
    if s.pages[p].present { ServeLiveInv(s, p, to, frames); }
  }

  lemma ServeRingInv(s: State, hot: bool, budget: nat, frames: set<Frame>)
    requires Inv(s, frames) && s.rings.free == []
    ensures Inv(ServeRing(s, hot, budget), frames) && ServeRing(s, hot, budget).rings.free == []
    decreases |Ring(s, hot)|
  {
    if Ring(s, hot) != [] && budget != 0 {
      hide Inv;
      var p := Ring(s, hot)[0];
      PopRingInv(s, hot, frames);
      ServeInv(PopRing(s, hot), p, hot, frames);
      ServeRingInv(Serve(PopRing(s, hot), p, hot), hot, if At(s.pages, p).present then budget - 1 else budget, frames);
    }
  }
}
