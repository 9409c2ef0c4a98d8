/**
 The migration loop of the policy thread: the invariant through it, the frames it never shares, the
 frames it conserves, and exactly when its `np != NULL` assertion fails.
 */
module PebsMigration {
  import opened Basics
  import opened PebsState
  import opened PebsSteps
  import opened PebsInvariant
  import opened PebsPreservation

  // ---- the invariant with the page under promotion held ----

  lemma PopHotLists(s: State)
    requires ListsOk(s.fifos) && CursorsOk(s) && s.fifos.L(NvmHot) != []
    ensures ListsOk(PopHot(s).fifos) && CursorsOk(PopHot(s))
    ensures Last(s.fifos, NvmHot) in s.fifos.home && s.fifos.home[Last(s.fifos, NvmHot)] == NvmHot
    ensures PopHot(s).fifos.home == s.fifos.home - {Last(s.fifos, NvmHot)}
  {
    DequeueFacts(s.fifos, NvmHot);
    hide ListsOk, NoDup;
    var s1 := PopHot(s);
    assert s1.fifos.L(DramHot) == s.fifos.L(DramHot);
  }

  lemma PopHotInv(s: State, frames: set<Frame>)
    requires Inv(s, frames) && s.rings.free == [] && s.fifos.L(NvmHot) != []
    ensures InvHolding(PopHot(s), Some(Last(s.fifos, NvmHot)), frames)
    ensures Last(s.fifos, NvmHot) in s.pages
  {
    hide ListsOk, IndexOk, FramesOk, CursorsOk, RingsOk, Dequeue;
    var p := Last(s.fifos, NvmHot);
    var s' := PopHot(s);
    PopHotLists(s);
    assert PageOkAt(s, None, p);
    hide PagesOk;
    RingsFrame(s, s', {p});
    StepInv(s, None, s', Some(p), {p}, frames);
  }

  /** The held page p, with its record changed in nothing but `hot`, goes on list l. */
  lemma PutInv(s: State, s': State, l: ListId, p: PageId, frames: set<Frame>)
    requires InvHolding(s, Some(p), frames) && p in s.pages && (l == NvmHot || l == NvmCold)
    requires s' == s.(pages := s.pages[p := s.pages[p].(hot := l == NvmHot)], fifos := Enqueue(s.fifos, l, p))
    ensures Inv(s', frames)
  {
    hide IndexOk, FramesOk, RingsOk;
    assert PageOkAt(s, Some(p), p);
    EnqueueOk(s.fifos, l, p);
    hide ListsOk;
    assert CursorsOk(s');
    hide CursorsOk, PagesOk;
    RingsFrame(s, s', {p});
    StepInv(s, Some(p), s', None, {p}, frames);
  }

  lemma PromoteLists(s: State, p: PageId)
    requires ListsOk(s.fifos) && CursorsOk(s) && s.fifos.L(DramFree) != [] && p !in s.fifos.home
    ensures var np, s' := Last(s.fifos, DramFree), Promote(s, p);
            && np in s.fifos.home && s.fifos.home[np] == DramFree && np != p
            && ListsOk(s'.fifos) && CursorsOk(s') && s'.fifos.home == s.fifos.home[p := DramHot][np := NvmFree]
  {
    var np := Last(s.fifos, DramFree);
    DequeueFacts(s.fifos, DramFree);
    var f1 := Dequeue(s.fifos, DramFree);
    assert f1.L(DramHot) == s.fifos.L(DramHot) && f1.L(NvmHot) == s.fifos.L(NvmHot);
    EnqueueOk(f1, DramHot, p);
    var f2 := Enqueue(f1, DramHot, p);
    EnqueueOk(f2, NvmFree, np);
    hide ListsOk;
    var f3 := Enqueue(f2, NvmFree, np);
    assert f3.home == s.fifos.home[p := DramHot][np := NvmFree];
    assert f3.L(DramHot) == [p] + s.fifos.L(DramHot) && f3.L(NvmHot) == s.fifos.L(NvmHot);
  }

  lemma PromoteInv(s: State, p: PageId, frames: set<Frame>)
    requires InvHolding(s, Some(p), frames) && p in s.pages && s.fifos.L(DramFree) != []
    ensures Inv(Promote(s, p), frames)
  {
    hide IndexOk, RingsOk, ListsOk, CursorsOk, NoDup, Enqueue, Dequeue, FramesOk;
    var np := Last(s.fifos, DramFree);
    var s' := Promote(s, p);
    assert PageOkAt(s, Some(p), p);
    PromoteLists(s, p);
    assert PageOkAt(s, Some(p), np);
    hide PagesOk;
    FramesSwap(s.pages, p, np, frames);
    RingsFrame(s, s', {p, np});
    SwapInv(s, Some(p), s', None, {p, np}, frames);
  }

  lemma DemoteLists(s: State)
    requires ListsOk(s.fifos) && CursorsOk(s) && s.fifos.L(DramCold) != [] && s.fifos.L(NvmFree) != []
    ensures var cp, np, s' := Last(s.fifos, DramCold), Last(s.fifos, NvmFree), Demote(s);
            && cp in s.fifos.home && s.fifos.home[cp] == DramCold && np in s.fifos.home && s.fifos.home[np] == NvmFree
            && ListsOk(s'.fifos) && CursorsOk(s') && s'.fifos.home == s.fifos.home[cp := NvmCold][np := DramFree]
            && s'.fifos.L(DramFree) == [np] + s.fifos.L(DramFree)
  {
    var cp, np := Last(s.fifos, DramCold), Last(s.fifos, NvmFree);
    DequeueFacts(s.fifos, DramCold);
    var f1 := Dequeue(s.fifos, DramCold);
    assert f1.L(NvmFree) == s.fifos.L(NvmFree);
    DequeueFacts(f1, NvmFree);
    var f2 := Dequeue(f1, NvmFree);
    EnqueueOk(f2, NvmCold, cp);
    var f3 := Enqueue(f2, NvmCold, cp);
    EnqueueOk(f3, DramFree, np);
    hide ListsOk;
    var f4 := Enqueue(f3, DramFree, np);
    assert f4.home == s.fifos.home[cp := NvmCold][np := DramFree];
    assert f4.L(DramHot) == s.fifos.L(DramHot) && f4.L(NvmHot) == s.fifos.L(NvmHot);
    assert f4.L(DramFree) == [np] + s.fifos.L(DramFree);
  }

  /** The two pages that trade frames are as they should be, and no other page changes. */
  lemma DemotedPages(s: State, p: PageId, frames: set<Frame>)
    requires InvHolding(s, Some(p), frames) && s.rings.free == []
    requires s.fifos.L(DramCold) != [] && s.fifos.L(NvmFree) != []
    ensures var cp, np, s' := Last(s.fifos, DramCold), Last(s.fifos, NvmFree), Demote(s);
            && cp in s.pages && np in s.pages && cp != np && cp in s'.pages && np in s'.pages
            && SameBut(s, s', {cp, np}) && HomesBut(s, s', {cp, np})
            && PageOkAt(s', Some(p), cp) && PageOkAt(s', Some(p), np)
            && s'.pages[cp] == s.pages[cp].(frame := s'.pages[cp].frame) && s'.pages[np].va == s.pages[np].va
            && s'.pages[np].present == s.pages[np].present && s'.pages[np].ringPresent == s.pages[np].ringPresent
            && FramesOk(s'.pages, frames)
  {
    hide IndexOk, RingsOk, ListsOk, CursorsOk, NoDup, Enqueue, Dequeue, FramesOk;
    var cp, np := Last(s.fifos, DramCold), Last(s.fifos, NvmFree);
    DemoteLists(s);
    assert PageOkAt(s, Some(p), cp) && PageOkAt(s, Some(p), np) && PageOkAt(s, Some(p), p);
    hide PagesOk;
    FramesSwap(s.pages, cp, np, frames);
  }

  lemma DemoteInv(s: State, p: PageId, frames: set<Frame>)
    requires InvHolding(s, Some(p), frames) && s.rings.free == []
    requires s.fifos.L(DramCold) != [] && s.fifos.L(NvmFree) != []
    ensures InvHolding(Demote(s), Some(p), frames)
  {
    hide IndexOk, RingsOk, ListsOk, CursorsOk, NoDup, Enqueue, Dequeue, FramesOk, SwapFrames, PagesOk, PageOkAt, SameBut, HomesBut;
    var cp, np, s' := Last(s.fifos, DramCold), Last(s.fifos, NvmFree), Demote(s);
    DemoteLists(s);
    DemotedPages(s, p, frames);
    RingsFrame(s, s', {cp, np});
    SwapInv(s, Some(p), s', Some(p), {cp, np}, frames);
  }

  // ---- what the policy thread never touches: counters, clocks, addresses ----

  ghost predicate CountsKept(s: State, s': State, p: PageId) {
    p in s.pages ==>
      && p in s'.pages
      && s'.pages[p].dramReads == s.pages[p].dramReads && s'.pages[p].nvmReads == s.pages[p].nvmReads
      && s'.pages[p].localClock == s.pages[p].localClock
      && s'.pages[p].present == s.pages[p].present && s'.pages[p].va == s.pages[p].va
  }

  ghost predicate KeepsCounts(s: State, s': State) {
    && s'.pages.Keys == s.pages.Keys && s'.clock == s.clock && s'.index == s.index
    && forall p: PageId :: CountsKept(s, s', p)
  }

  lemma KeepsCountsTransitive(s: State, s1: State, s2: State)
    requires KeepsCounts(s, s1) && KeepsCounts(s1, s2)
    ensures KeepsCounts(s, s2)
  {
    forall p: PageId ensures CountsKept(s, s2, p) { assert CountsKept(s, s1, p) && CountsKept(s1, s2, p); }
  }

  /** A free page has no counts to lose, so a swap of frames keeps every counter. */
  lemma SwapKeepsCounts(s: State, s': State, p: PageId, np: PageId)
    requires p in s.pages && np in s.pages && p != np
    requires s'.pages == SwapFrames(s.pages, p, np) && s'.clock == s.clock && s'.index == s.index
    requires ClockOk(s.pages[np], s.clock) && !s.pages[np].present
    ensures KeepsCounts(s, s')
  {
    forall q: PageId ensures CountsKept(s, s', q) { }
  }

  lemma PromoteKeeps(s: State, p: PageId, frames: set<Frame>)
    requires InvHolding(s, Some(p), frames) && p in s.pages && s.fifos.L(DramFree) != []
    ensures KeepsCounts(s, Promote(s, p)) && Promote(s, p).FreeFrames() == s.FreeFrames()
    ensures Promote(s, p).rings == s.rings
  {
    hide IndexOk, RingsOk, ListsOk, CursorsOk, NoDup, FramesOk;
    var np := Last(s.fifos, DramFree);
    assert PageOkAt(s, Some(p), p);
    PromoteLists(s, p);
    assert PageOkAt(s, Some(p), np);
    hide PagesOk;
    SwapKeepsCounts(s, Promote(s, p), p, np);
  }

  lemma DemoteKeeps(s: State, p: PageId, frames: set<Frame>)
    requires InvHolding(s, Some(p), frames) && s.rings.free == []
    requires s.fifos.L(DramCold) != [] && s.fifos.L(NvmFree) != []
    ensures KeepsCounts(s, Demote(s)) && Demote(s).FreeFrames() == s.FreeFrames()
    ensures Demote(s).rings == s.rings && Demote(s).fifos.L(DramFree) != []
  {
    hide IndexOk, RingsOk, ListsOk, CursorsOk, NoDup, FramesOk;
    var cp, np := Last(s.fifos, DramCold), Last(s.fifos, NvmFree);
    DemoteLists(s);
    assert PageOkAt(s, Some(p), cp) && PageOkAt(s, Some(p), np);
    hide PagesOk;
    SwapKeepsCounts(s, Demote(s), cp, np);
  }

  /** Whatever becomes of the held page, it ends on a list and no frame is gained or lost. */
  lemma PlaceInv(s: State, p: PageId, frames: set<Frame>)
    requires InvHolding(s, Some(p), frames) && p in s.pages && s.rings.free == []
    ensures var m := Place(s, p);
            && !m.NothingHot?
            && (!m.NoFrame? ==>
                  && Inv(m.state, frames) && m.state.rings == s.rings
                  && KeepsCounts(s, m.state) && m.state.FreeFrames() == s.FreeFrames())
  {
    hide InvHolding, Promote, Demote;
    if HasCooled(s.pages[p]) {
      PutInv(s, PutCold(s, p), NvmCold, p, frames);
      forall q: PageId ensures CountsKept(s, PutCold(s, p), q) { }
    } else if s.fifos.L(DramFree) != [] {
      PromoteInv(s, p, frames);
      PromoteKeeps(s, p, frames);
    } else if s.fifos.L(DramCold) == [] {
      HeldIsHot(s, p, frames);
      PutInv(s, PutBack(s, p), NvmHot, p, frames);
      forall q: PageId ensures CountsKept(s, PutBack(s, p), q) { }
    } else if s.fifos.L(NvmFree) != [] {
      DemoteInv(s, p, frames);
      DemoteKeeps(s, p, frames);
      PromoteInv(Demote(s), p, frames);
      PromoteKeeps(Demote(s), p, frames);
      KeepsCountsTransitive(s, Demote(s), Promote(Demote(s), p));
    }
  }

  lemma HeldIsHot(s: State, p: PageId, frames: set<Frame>)
    requires InvHolding(s, Some(p), frames) && p in s.pages
    ensures s.pages[p].hot && s.pages[p].(hot := true) == s.pages[p]
  {
    assert PageOkAt(s, Some(p), p);
  }

  lemma MigrateOneInv(s: State, frames: set<Frame>)
    requires Inv(s, frames) && s.rings.free == []
    ensures var m := MigrateOne(s);
            m.Cooled? || m.Promoted? || m.DramAllHot? ==>
              && Inv(m.state, frames) && m.state.rings == s.rings
              && KeepsCounts(s, m.state) && m.state.FreeFrames() == s.FreeFrames()
  {
    hide InvHolding, Place;
    if s.fifos.L(NvmHot) != [] {
      var s1, p := PopHot(s), Last(s.fifos, NvmHot);
      PopHotInv(s, frames);
      assert s1.FreeFrames() == s.FreeFrames();
      forall q: PageId ensures CountsKept(s, s1, q) { }
      PlaceInv(s1, p, frames);
      if !Place(s1, p).NoFrame? { KeepsCountsTransitive(s, s1, Place(s1, p).state); }
    }
  }

  ghost predicate EndOk(s: State, m: MigrationEnd, frames: set<Frame>) {
    !m.Aborted? ==>
      && Inv(m.state, frames) && m.state.rings == s.rings
      && KeepsCounts(s, m.state) && m.state.FreeFrames() == s.FreeFrames()
  }

  /** The loop keeps the invariant, every counter and the number of free frames. */
  lemma MigrateLoopInv(s: State, migrated: nat, frames: set<Frame>)
    requires Inv(s, frames) && s.rings.free == []
    ensures EndOk(s, MigrateLoop(s, migrated), frames)
    decreases |s.fifos.L(NvmHot)|
  {
    hide Inv, MigrateOne;
    if migrated >= PEBS_KSWAPD_MIGRATE_RATE {
      forall q: PageId ensures CountsKept(s, s, q) { }
    } else {
      var m := MigrateOne(s);
      MigrateOneInv(s, frames);
      MigrateOneShrinks(s);
      if m.Cooled? || m.Promoted? {
        var more := if m.Cooled? then migrated else migrated + HUGEPAGE_SIZE;
        MigrateLoopInv(m.state, more, frames);
        var e := MigrateLoop(m.state, more);
        if !e.Aborted? { KeepsCountsTransitive(s, m.state, e.state); }
      } else if m.NothingHot? {
        forall q: PageId ensures CountsKept(s, s, q) { }
      }
    }
  }

  // ---- when the `np != NULL` assertion fails ----

  /** Some page of the NVM hot list still counts as hot when the loop looks at it. */
  ghost predicate SomeStillHot(s: State) {
    exists p :: p in s.fifos.L(NvmHot) && !HasCooled(At(s.pages, p))
  }

  /** No frame is free in either tier, DRAM has a cold page to evict, and NVM has a page to promote. */
  ghost predicate Jammed(s: State) {
    s.FreeFrames() == 0 && s.fifos.L(DramCold) != [] && SomeStillHot(s)
  }

  /** The lists and pages after a cooled page has been set aside. */
  lemma CooledLists(s: State)
    requires ListsOk(s.fifos) && MigrateOne(s).Cooled?
    ensures var p, s' := Last(s.fifos, NvmHot), MigrateOne(s).state;
            && s.fifos.L(NvmHot) != [] && HasCooled(At(s.pages, p))
            && (forall q :: q in s'.fifos.L(NvmHot) <==> q in s.fifos.L(NvmHot) && q != p)
            && (forall q :: q != p ==> At(s'.pages, q) == At(s.pages, q))
            && s'.fifos.L(DramCold) == s.fifos.L(DramCold) && s'.FreeFrames() == s.FreeFrames()
  {
    var p := Last(s.fifos, NvmHot);
    DequeueFacts(s.fifos, NvmHot);
    DequeueIsRemove(s.fifos, NvmHot);
    assert ListOk(s.fifos, NvmHot);
    WithoutFacts(s.fifos.L(NvmHot), p);
    hide NoDup, Without, ListsOk;
    assert MigrateOne(s).state.fifos.L(NvmHot) == Without(s.fifos.L(NvmHot), p);
  }

  /** Setting a cooled page aside changes nothing that decides whether the loop jams. */
  lemma CooledKeepsJam(s: State, frames: set<Frame>)
    requires Inv(s, frames) && s.rings.free == [] && MigrateOne(s).Cooled?
    ensures Jammed(MigrateOne(s).state) <==> Jammed(s)
  {
    assert ListsOk(s.fifos) by { InvLists(s, frames); }
    CooledLists(s);
    hide Inv, ListsOk, MigrateOne, HasCooled;
    var s' := MigrateOne(s).state;
    if SomeStillHot(s) {
      var q :| q in s.fifos.L(NvmHot) && !HasCooled(At(s.pages, q));
      assert q in s'.fifos.L(NvmHot) && !HasCooled(At(s'.pages, q));
    }
  }

  lemma InvLists(s: State, frames: set<Frame>)
    requires Inv(s, frames)
    ensures ListsOk(s.fifos)
  {
  }

  /** The assertion fails exactly when the loop starts jammed. */
  lemma MigrateLoopAborts(s: State, migrated: nat, frames: set<Frame>)
    requires Inv(s, frames) && s.rings.free == [] && migrated < PEBS_KSWAPD_MIGRATE_RATE
    ensures MigrateLoop(s, migrated).Aborted? <==> Jammed(s)
    decreases |s.fifos.L(NvmHot)|
  {
    hide Inv, InvHolding;
    var m := MigrateOne(s);
    MigrateOneInv(s, frames);
    MigrateOneShrinks(s);
    match m
    case Cooled(s1) =>
      CooledKeepsJam(s, frames);
      MigrateLoopAborts(s1, migrated, frames);
    case Promoted(s1) =>
      PromotedHadFrame(s);
      if migrated + HUGEPAGE_SIZE < PEBS_KSWAPD_MIGRATE_RATE {
        MigrateLoopAborts(s1, migrated + HUGEPAGE_SIZE, frames);
      }
    case NothingHot =>
    case DramAllHot(s1) =>
    case NoFrame =>
      var p := Last(s.fifos, NvmHot);
      assert p in s.fifos.L(NvmHot) && !HasCooled(At(s.pages, p));
  }

  lemma PromotedHadFrame(s: State)
    requires MigrateOne(s).Promoted?
    ensures s.FreeFrames() > 0
  {
  }

  // ---- frames in the middle of a swap ----

  /** No two pages that hold application data are in the same frame. */
  ghost predicate NoSharing(pages: Pages) {
    forall a, b :: a in pages && b in pages && a != b && pages[a].present && pages[b].present ==>
      pages[a].frame != pages[b].frame
  }

  /**
   Between the remap of p and the moment np takes p's old frame over, two structures name one
   frame; but np holds nothing, so no two present pages ever share one, and the frame the data is
   copied into belonged to no present page.
   */
  lemma MidSwapNoSharing(s: State, held: Option<PageId>, p: PageId, np: PageId, frames: set<Frame>)
    requires InvHolding(s, held, frames) && p in s.pages && np in s.pages && p != np && !s.pages[np].present
    ensures NoSharing(s.pages)
    ensures NoSharing(Remap(s.pages, p, s.pages[np].frame))
    ensures NoSharing(SwapFrames(s.pages, p, np))
    ensures forall q :: q in s.pages && s.pages[q].present ==> s.pages[q].frame != s.pages[np].frame
  {
    hide ListsOk, PagesOk, RingsOk, IndexOk, CursorsOk;
    assert forall a, b :: a in s.pages && b in s.pages ==> Apart(s.pages, a, b);
  }
}
