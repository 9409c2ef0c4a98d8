/**
 What every step of the page manager keeps, stated page by page, with the frame rules the
 preservation proofs share. `held` is the page that is between lists: none between steps, and the
 page under promotion inside the migration loop.
 */
module PebsInvariant {
  import opened Basics
  import opened PebsState
  import opened PebsSteps

  /** List, tier, `hot` and `present` agree; a page waiting in the free ring has already been reset. */
  ghost predicate PageOk(pg: Page, list: ListId, waiting: bool) {
    && pg.frame.dram == list.InDram()
    && (if waiting
        then !pg.present && !pg.hot && !list.IsFree()
        else pg.hot == list.IsHot() && pg.present == !list.IsFree())
  }

  /** No counter passes the cooling threshold by more than one, or rests there once its page is up to date. */
  ghost predicate CountOk(count: nat, pg: Page, now: nat) {
    && count <= PEBS_COOLING_THRESHOLD + 1
    && (count == PEBS_COOLING_THRESHOLD + 1 ==> pg.localClock < now)
    && (!pg.present ==> count == 0)
  }

  ghost predicate ClockOk(pg: Page, now: nat) {
    pg.localClock <= now && CountOk(pg.dramReads, pg, now) && CountOk(pg.nvmReads, pg, now)
  }

  ghost predicate PageOkAt(s: State, held: Option<PageId>, p: PageId) {
    p in s.pages ==>
      && ClockOk(s.pages[p], s.clock)
      && (if held == Some(p)
          then p !in s.fifos.home && p !in s.rings.free && s.pages[p].present && s.pages[p].hot && !s.pages[p].frame.dram
          else p in s.fifos.home && PageOk(s.pages[p], s.fifos.home[p], p in s.rings.free))
  }

  ghost predicate PagesOk(s: State, held: Option<PageId>) {
    && (forall p: PageId :: PageOkAt(s, held, p))
    && (forall p: PageId :: p in s.fifos.home ==> p in s.pages)
  }

  /** Entries name real pages; a page has at most one hot or cold request, and knows of it. */
  ghost predicate EntryOk(s: State, p: PageId) {
    && (p in s.rings.free ==> p in s.pages)
    && (p in s.rings.hot || p in s.rings.cold ==> p in s.pages && s.pages[p].ringPresent && s.pages[p].va != 0)
    && !(p in s.rings.hot && p in s.rings.cold)
  }

  ghost predicate RingsOk(s: State) {
    && NoDup(s.rings.free) && NoDup(s.rings.hot) && NoDup(s.rings.cold)
    && (forall p: PageId :: EntryOk(s, p))
  }

  ghost predicate MappingOk(s: State, va: Address) {
    va in s.index ==>
      && va != 0 && va % HUGEPAGE_SIZE == 0 && s.index[va] in s.pages
      && s.pages[s.index[va]].present && s.pages[s.index[va]].va == va
  }

  ghost predicate IndexedOk(s: State, p: PageId) {
    p in s.pages && s.pages[p].present ==> s.pages[p].va in s.index && s.index[s.pages[p].va] == p
  }

  /** The index holds exactly the present pages, each under its own address. */
  ghost predicate IndexOk(s: State) {
    (forall va: Address :: MappingOk(s, va)) && (forall p: PageId :: IndexedOk(s, p))
  }

  /** A cooling cursor is NULL or on its own hot list. */
  ghost predicate CursorOk(w: Sweep, hot: seq<PageId>) {
    w.cursor.Some? ==> w.cursor.value in hot
  }

  ghost predicate CursorsOk(s: State) {
    CursorOk(s.dramSweep, s.fifos.L(DramHot)) && CursorOk(s.nvmSweep, s.fifos.L(NvmHot))
  }

  ghost predicate Apart(pages: Pages, p: PageId, q: PageId) {
    p in pages && q in pages && p != q ==> pages[p].frame != pages[q].frame
  }

  /** Distinct pages have distinct frames out of those created at initialisation, of which there are as many. */
  ghost predicate FramesOk(pages: Pages, frames: set<Frame>) {
    && (forall p :: p in pages ==> pages[p].frame in frames)
    && (forall p: PageId, q: PageId :: Apart(pages, p, q))
    && |pages.Keys| == |frames|
  }

  ghost predicate InvHolding(s: State, held: Option<PageId>, frames: set<Frame>) {
    && ListsOk(s.fifos)
    && PagesOk(s, held)
    && RingsOk(s)
    && IndexOk(s)
    && CursorsOk(s)
    && FramesOk(s.pages, frames)
  }

  ghost predicate Inv(s: State, frames: set<Frame>) {
    InvHolding(s, None, frames)
  }

  // ---- frame rules: what survives when only the pages in `changed` change ----

  ghost predicate SameBut(s: State, s': State, changed: set<PageId>) {
    && s'.pages.Keys == s.pages.Keys
    && (forall q :: q in s.pages && q !in changed ==> s'.pages[q] == s.pages[q])
  }

  ghost predicate HomesBut(s: State, s': State, changed: set<PageId>) {
    && (forall q :: q !in changed ==> (q in s'.fifos.home <==> q in s.fifos.home))
    && (forall q :: q !in changed && q in s.fifos.home ==> s'.fifos.home[q] == s.fifos.home[q])
  }

  lemma PagesFrame(s: State, held: Option<PageId>, s': State, held': Option<PageId>, changed: set<PageId>)
    requires PagesOk(s, held) && SameBut(s, s', changed) && HomesBut(s, s', changed) && s'.clock == s.clock
    requires held.Some? ==> held == held' || held.value in changed
    requires held'.Some? ==> held == held' || held'.value in changed
    requires forall q :: q in s.pages && q !in changed ==> (q in s'.rings.free <==> q in s.rings.free)
    requires forall q :: q in changed ==> q in s.pages && PageOkAt(s', held', q)
    ensures PagesOk(s', held')
  {
    forall q: PageId ensures PageOkAt(s', held', q) {
      assert PageOkAt(s, held, q);
    }
  }

  lemma IndexFrame(s: State, s': State, changed: set<PageId>)
    requires IndexOk(s) && SameBut(s, s', changed) && s'.index == s.index
    requires forall q :: q in changed && q in s.pages ==>
               s'.pages[q].va == s.pages[q].va && s'.pages[q].present == s.pages[q].present
    ensures IndexOk(s')
  {
    forall va: Address ensures MappingOk(s', va) { assert MappingOk(s, va); }
    forall q: PageId ensures IndexedOk(s', q) { assert IndexedOk(s, q); }
  }

  lemma RingsFrame(s: State, s': State, changed: set<PageId>)
    requires RingsOk(s) && SameBut(s, s', changed) && s'.rings == s.rings
    requires forall q :: q in changed && q in s.pages ==>
               s'.pages[q].va == s.pages[q].va && s'.pages[q].ringPresent == s.pages[q].ringPresent
    ensures RingsOk(s')
  {
    hide NoDup;
    forall q: PageId ensures EntryOk(s', q) { assert EntryOk(s, q); }
  }

  /** A step that adds ring entries for p only. */
  lemma RingsStep(s: State, s': State, p: PageId)
    requires RingsOk(s) && SameBut(s, s', {p}) && EntryOk(s', p)
    requires NoDup(s'.rings.free) && NoDup(s'.rings.hot) && NoDup(s'.rings.cold)
    requires forall q :: q != p && q in s'.rings.free ==> q in s.rings.free
    requires forall q :: q != p && q in s'.rings.hot ==> q in s.rings.hot
    requires forall q :: q != p && q in s'.rings.cold ==> q in s.rings.cold
    ensures RingsOk(s')
  {
    hide NoDup;
    forall q: PageId ensures EntryOk(s', q) { assert EntryOk(s, q); }
  }

  lemma FramesFrame(s: State, s': State, changed: set<PageId>, frames: set<Frame>)
    requires FramesOk(s.pages, frames) && SameBut(s, s', changed)
    requires forall q :: q in changed && q in s.pages ==> s'.pages[q].frame == s.pages[q].frame
    ensures FramesOk(s'.pages, frames)
  {
    forall p: PageId, q: PageId ensures Apart(s'.pages, p, q) { assert Apart(s.pages, p, q); }
  }

  /** A step that keeps addresses, presence, the clock and the index. */
  lemma SwapInv(s: State, held: Option<PageId>, s': State, held': Option<PageId>, changed: set<PageId>, frames: set<Frame>)
    requires InvHolding(s, held, frames) && SameBut(s, s', changed) && HomesBut(s, s', changed)
    requires s'.clock == s.clock && s'.index == s.index
    requires held.Some? ==> held == held' || held.value in changed
    requires held'.Some? ==> held == held' || held'.value in changed
    requires forall q :: q in s.pages && q !in changed ==> (q in s'.rings.free <==> q in s.rings.free)
    requires forall q :: q in changed ==> q in s.pages && PageOkAt(s', held', q)
    requires forall q :: q in changed && q in s.pages ==>
               s'.pages[q].va == s.pages[q].va && s'.pages[q].present == s.pages[q].present
    requires ListsOk(s'.fifos) && RingsOk(s') && CursorsOk(s') && FramesOk(s'.pages, frames)
    ensures InvHolding(s', held', frames)
  {
    hide ListsOk, PagesOk, RingsOk, IndexOk, FramesOk, CursorsOk, PageOkAt;
    PagesFrame(s, held, s', held', changed);
    IndexFrame(s, s', changed);
  }

  /** A step that keeps the frames as well. */
  lemma StepInv(s: State, held: Option<PageId>, s': State, held': Option<PageId>, changed: set<PageId>, frames: set<Frame>)
    requires InvHolding(s, held, frames) && SameBut(s, s', changed) && HomesBut(s, s', changed)
    requires s'.clock == s.clock && s'.index == s.index
    requires held.Some? ==> held == held' || held.value in changed
    requires held'.Some? ==> held == held' || held'.value in changed
    requires forall q :: q in s.pages && q !in changed ==> (q in s'.rings.free <==> q in s.rings.free)
    requires forall q :: q in changed ==> q in s.pages && PageOkAt(s', held', q)
    requires forall q :: q in changed && q in s.pages ==>
               && s'.pages[q].va == s.pages[q].va && s'.pages[q].present == s.pages[q].present
               && s'.pages[q].frame == s.pages[q].frame
    requires ListsOk(s'.fifos) && RingsOk(s') && CursorsOk(s')
    ensures InvHolding(s', held', frames)
  {
    hide ListsOk, PagesOk, RingsOk, IndexOk, FramesOk, CursorsOk, PageOkAt;
    FramesFrame(s, s', changed, frames);
    SwapInv(s, held, s', held', changed, frames);
  }

  /** Swapping the frames of two pages keeps the bijection. */
  lemma FramesSwap(pages: Pages, p: PageId, np: PageId, frames: set<Frame>)
    requires FramesOk(pages, frames) && p in pages && np in pages && p != np
    ensures FramesOk(SwapFrames(pages, p, np), frames)
    ensures SwapFrames(pages, p, np).Keys == pages.Keys
  {
    var pages' := SwapFrames(pages, p, np);
    assert pages'.Keys == pages.Keys;
    forall a: PageId, b: PageId ensures Apart(pages', a, b) {
      var a0 := if a == p then np else if a == np then p else a;
      var b0 := if b == p then np else if b == np then p else b;
      assert Apart(pages, a0, b0);
    }
  }

  /** So the map from pages to frames is a bijection: every frame belongs to exactly one page. */
  lemma FramesBijective(pages: Pages, frames: set<Frame>)
    requires FramesOk(pages, frames)
    ensures forall p, q :: p in pages && q in pages && pages[p].frame == pages[q].frame ==> p == q
    ensures frames == set p | p in pages :: pages[p].frame
  {
    assert forall p, q :: p in pages && q in pages ==> Apart(pages, p, q);
    var image := set p | p in pages :: pages[p].frame;
    ImageSize(pages, pages.Keys);
    assert image == set p | p in pages.Keys :: pages[p].frame;
    SameSizeSubset(image, frames);
  }

  lemma ImageSize(pages: Pages, ids: set<PageId>)
    requires ids <= pages.Keys && forall p: PageId, q: PageId :: Apart(pages, p, q)
    ensures |set p | p in ids :: pages[p].frame| == |ids|
  {
    if ids != {} {
      var x :| x in ids;
      var rest := set p | p in ids - {x} :: pages[p].frame;
      ImageSize(pages, ids - {x});
      assert (set p | p in ids :: pages[p].frame) == rest + {pages[x].frame};
      forall p | p in ids - {x} ensures pages[p].frame != pages[x].frame { assert Apart(pages, p, x); }
    }
  }

  lemma SameSizeSubset(a: set<Frame>, b: set<Frame>)
    requires a <= b && |a| == |b|
    ensures a == b
  {
    if a != {} {
      var x :| x in a;
      SameSizeSubset(a - {x}, b - {x});
    } else {
      assert b == {};
    }
  }
}
