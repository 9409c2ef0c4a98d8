/**
 The steps of the page manager as functions on its state: allocation, unmapping of one page,
 one access sample, and one pass of the policy thread.
 */
module PebsSteps {
  import opened Basics
  import opened PebsState

  // ---- pebs_allocate_page, then the caller's mapping and indexing of the page ----

  function AllocateFrom(s: State, dram: bool, va: Address): State
    requires s.fifos.L(FreeList(dram)) != []
  {
    var p := Last(s.fifos, FreeList(dram));
    s.(pages := s.pages[p := At(s.pages, p).(present := true, va := va)],
       fifos := Enqueue(Dequeue(s.fifos, FreeList(dram)), ColdList(dram), p),
       index := s.index[va := p])
  }

  /** The addresses a caller may map: non-null, huge-page aligned, not in the index. */
  predicate Mappable(s: State, va: Address) {
    va != 0 && va % HUGEPAGE_SIZE == 0 && va !in s.index
  }

  /** None: out of memory. */
  function Allocate(s: State, va: Address): Option<State> {
    if s.fifos.L(DramFree) != [] then Some(AllocateFrom(s, true, va))
    else if s.fifos.L(NvmFree) != [] then Some(AllocateFrom(s, false, va))
    else None
  }

  // ---- hemem_munmap's work on one page, with pebs_remove_page ----

  function Reset(pg: Page): Page {
    pg.(present := false, hot := false, dramReads := 0, nvmReads := 0)
  }

  /** None: the free ring is full and the caller spins. */
  function Unmap(s: State, va: Address): Option<State> {
    if va !in s.index then Some(s)
    else if |s.rings.free| == CAPACITY - 1 then None
    else
      var p := s.index[va];
      Some(s.(pages := s.pages[p := Reset(At(s.pages, p))],
              rings := s.rings.(free := s.rings.free + [p]),
              index := s.index - {va}))
  }

  // ---- one sample of pebs_scan_thread ----

  function Count(pg: Page, j: Source): nat {
    if j == DramRead then pg.dramReads else pg.nvmReads
  }

  function Bump(pg: Page, j: Source): Page {
    if j == DramRead then pg.(dramReads := pg.dramReads + 1) else pg.(nvmReads := pg.nvmReads + 1)
  }

  /** Both counters brought up to the clock. */
  function Aged(pg: Page, now: nat): Page {
    pg.(dramReads := Decayed(pg.dramReads, pg.localClock, now),
        nvmReads := Decayed(pg.nvmReads, pg.localClock, now),
        localClock := now)
  }

  predicate WantsHot(pg: Page) {
    pg.dramReads + pg.nvmReads >= HOT_READ_THRESHOLD && !pg.hot && !pg.ringPresent
  }

  predicate WantsCold(pg: Page) {
    pg.dramReads + pg.nvmReads < HOT_READ_THRESHOLD && pg.hot && !pg.ringPresent
  }

  /** The sampled page's record: counted, possibly with a request filed, then aged. */
  function Sampled(pg: Page, j: Source, now: nat): Page {
    var b := Bump(pg, j);
    Aged(b.(ringPresent := b.ringPresent || WantsHot(b) || WantsCold(b)), now)
  }

  function File(rings: Rings, pg: Page, p: PageId): Rings {
    rings.(hot := if WantsHot(pg) then RingPut(rings.hot, p) else rings.hot,
           cold := if WantsCold(pg) then RingPut(rings.cold, p) else rings.cold)
  }

  /** Does the sample push its counter over the cooling threshold? */
  predicate Ticks(pg: Page, j: Source, now: nat) {
    Count(Sampled(pg, j, now), j) > PEBS_COOLING_THRESHOLD
  }

  function SamplePage(s: State, p: PageId, j: Source): State {
    var pg := At(s.pages, p);
    var s1 := s.(pages := s.pages[p := Sampled(pg, j, s.clock)], rings := File(s.rings, Bump(pg, j), p));
    if Ticks(pg, j, s.clock) then
      s1.(clock := s.clock + 1, dramSweep := s.dramSweep.(need := true), nvmSweep := s.nvmSweep.(need := true))
    else s1
  }

  function Sample(s: State, va: Address, j: Source): State {
    if va in s.index && At(s.pages, s.index[va]).va != 0 then SamplePage(s, s.index[va], j) else s
  }

  // ---- the policy pass: free ring ----

  function MoveCursor(w: Sweep, hot: seq<PageId>, p: PageId): Sweep {
    if w.cursor == Some(p) then w.(cursor := NextPage(hot, Some(p))) else w
  }

  /** `update_current_cool_page` */
  function MoveCursors(s: State, p: PageId): State {
    s.(dramSweep := MoveCursor(s.dramSweep, s.fifos.L(DramHot), p),
       nvmSweep := MoveCursor(s.nvmSweep, s.fifos.L(NvmHot), p))
  }

  /** Take p off list `from` and enqueue it on `to`. */
  function Relist(f: Fifos, from: ListId, to: ListId, p: PageId): Fifos {
    Enqueue(Remove(f, from, p), to, p)
  }

  function FreeOne(s: State): State
    requires s.rings.free != []
  {
    var p := s.rings.free[0];
    var s1 := MoveCursors(s.(rings := s.rings.(free := s.rings.free[1..])), p);
    var dest := FreeList(At(s.pages, p).frame.dram);
    if p in s.fifos.home then s1.(fifos := Relist(s.fifos, s.fifos.home[p], dest, p)) else s1
  }

  function DrainFree(s: State): State
    decreases |s.rings.free|
  {
    if s.rings.free == [] then s else DrainFree(FreeOne(s))
  }

  // ---- the policy pass: hot and cold requests ----

  function TempList(dram: bool, hot: bool): ListId { if hot then HotList(dram) else ColdList(dram) }

  /** `make_hot` (to == true) and `make_cold` (to == false) */
  function MakeTemp(s: State, p: PageId, to: bool): State {
    var pg := At(s.pages, p);
    if pg.hot == to then s
    else
      s.(pages := s.pages[p := pg.(hot := to)],
         fifos := Relist(s.fifos, TempList(pg.frame.dram, !to), TempList(pg.frame.dram, to), p))
  }

  /** One request; a page that has been freed since is skipped and keeps `ring_present`. */
  function Serve(s: State, p: PageId, to: bool): State {
    if !At(s.pages, p).present then s
    else
      var s1 := MoveCursors(s, p);
      MakeTemp(s1.(pages := s.pages[p := s.pages[p].(ringPresent := false)]), p, to)
  }

  function Ring(s: State, hot: bool): seq<PageId> { if hot then s.rings.hot else s.rings.cold }

  function PopRing(s: State, hot: bool): State
    requires Ring(s, hot) != []
  {
    s.(rings := if hot then s.rings.(hot := s.rings.hot[1..]) else s.rings.(cold := s.rings.cold[1..]))
  }

  /** Serve requests until the ring is empty or `budget` live ones have been served. */
  function ServeRing(s: State, hot: bool, budget: nat): State
    decreases |Ring(s, hot)|
  {
    if Ring(s, hot) == [] || budget == 0 then s
    else
      var p := Ring(s, hot)[0];
      var live := At(s.pages, p).present;
      ServeRing(Serve(PopRing(s, hot), p, hot), hot, if live then budget - 1 else budget)
  }

  // ---- the policy pass: migration ----

  /** The page structure np gives its frame away and takes over the frame f. */
  function TakeOver(pages: Pages, np: PageId, f: Frame): Pages {
    pages[np := Reset(At(pages, np)).(frame := f)]
  }

  /** `hemem_migrate_up`/`hemem_migrate_down` as the page structures see it: p now uses frame f. */
  function Remap(pages: Pages, p: PageId, f: Frame): Pages {
    pages[p := At(pages, p).(frame := f)]
  }

  /** p moves into np's frame and np is left with p's. */
  function SwapFrames(pages: Pages, p: PageId, np: PageId): Pages {
    TakeOver(Remap(pages, p, At(pages, np).frame), np, At(pages, p).frame)
  }

  /** Promote the held page p into the frame of the oldest free DRAM page. */
  function Promote(s: State, p: PageId): State
    requires s.fifos.L(DramFree) != []
  {
    var np := Last(s.fifos, DramFree);
    s.(pages := SwapFrames(s.pages, p, np),
       fifos := Enqueue(Enqueue(Dequeue(s.fifos, DramFree), DramHot, p), NvmFree, np))
  }

  /** Demote the oldest cold DRAM page into the frame of the oldest free NVM page. */
  function Demote(s: State): State
    requires s.fifos.L(DramCold) != [] && s.fifos.L(NvmFree) != []
  {
    var cp, np := Last(s.fifos, DramCold), Last(s.fifos, NvmFree);
    s.(pages := SwapFrames(s.pages, cp, np),
       fifos := Enqueue(Enqueue(Dequeue(Dequeue(s.fifos, DramCold), NvmFree), NvmCold, cp), DramFree, np))
  }

  /** What one iteration of the migration loop does. */
  datatype Migration =
    | NothingHot                 // the NVM hot list is empty: leave the loop
    | Cooled(state: State)       // the page had cooled: moved to the cold list
    | Promoted(state: State)     // the page now lives in DRAM
    | DramAllHot(state: State)   // no cold DRAM page: put back, and leave the pass
    | NoFrame                    // the `np != NULL` assertion fails

  /** Take the oldest hot NVM page off its list; a cursor on it restarts at the head of the list. */
  function PopHot(s: State): State
    requires s.fifos.L(NvmHot) != []
  {
    var f := Dequeue(s.fifos, NvmHot);
    var first := if f.L(NvmHot) == [] then None else Some(f.L(NvmHot)[0]);
    s.(fifos := f,
       nvmSweep := if s.nvmSweep.cursor == Some(Last(s.fifos, NvmHot)) then s.nvmSweep.(cursor := first) else s.nvmSweep)
  }

  predicate HasCooled(pg: Page) { pg.dramReads + pg.nvmReads < HOT_READ_THRESHOLD }

  /** The held page p goes to the NVM cold list. */
  function PutCold(s: State, p: PageId): State {
    s.(pages := s.pages[p := At(s.pages, p).(hot := false)], fifos := Enqueue(s.fifos, NvmCold, p))
  }

  function PutBack(s: State, p: PageId): State {
    s.(fifos := Enqueue(s.fifos, NvmHot, p))
  }

  /** What happens to the held page p. */
  function Place(s: State, p: PageId): Migration {
    if HasCooled(At(s.pages, p)) then Cooled(PutCold(s, p))
    else if s.fifos.L(DramFree) != [] then Promoted(Promote(s, p))
    else if s.fifos.L(DramCold) == [] then DramAllHot(PutBack(s, p))
    else if s.fifos.L(NvmFree) == [] then NoFrame
    else Promoted(Promote(Demote(s), p))
  }

  function MigrateOne(s: State): Migration {
    if s.fifos.L(NvmHot) == [] then NothingHot else Place(PopHot(s), Last(s.fifos, NvmHot))
  }

  /** How the migration loop ends. */
  datatype MigrationEnd = Finished(state: State) | Out(state: State) | Aborted

  lemma PlaceKeepsHotList(s: State, p: PageId)
    ensures Place(s, p).Cooled? || Place(s, p).Promoted? ==> Place(s, p).state.fifos.L(NvmHot) == s.fifos.L(NvmHot)
  {
    if !HasCooled(At(s.pages, p)) && s.fifos.L(DramFree) == [] && s.fifos.L(DramCold) != [] && s.fifos.L(NvmFree) != [] {
      var s1 := Demote(s);
      assert s1.fifos.L(NvmHot) == s.fifos.L(NvmHot);
    }
  }

  /** Every iteration that does not leave the loop takes one page off the NVM hot list for good. */
  lemma MigrateOneShrinks(s: State)
    ensures MigrateOne(s).Cooled? || MigrateOne(s).Promoted? ==>
              |MigrateOne(s).state.fifos.L(NvmHot)| == |s.fifos.L(NvmHot)| - 1
  {
    if s.fifos.L(NvmHot) != [] {
      var s1, p := PopHot(s), Last(s.fifos, NvmHot);
      assert |s1.fifos.L(NvmHot)| == |s.fifos.L(NvmHot)| - 1;
      hide Place;
      PlaceKeepsHotList(s1, p);
    }
  }

  function MigrateLoop(s: State, migrated: nat): MigrationEnd
    decreases |s.fifos.L(NvmHot)|
  {
    if migrated >= PEBS_KSWAPD_MIGRATE_RATE then Finished(s)
    else
      MigrateOneShrinks(s);
      match MigrateOne(s)
      case NothingHot => Finished(s)
      case Cooled(s1) => MigrateLoop(s1, migrated)
      case Promoted(s1) => MigrateLoop(s1, migrated + HUGEPAGE_SIZE)
      case DramAllHot(s1) => Out(s1)
      case NoFrame => Aborted
  }

  // ---- the policy pass: cooling in place ----

  function WithSweep(s: State, dram: bool, w: Sweep): State {
    if dram then s.(dramSweep := w) else s.(nvmSweep := w)
  }

  /** Does the sweep leave this page on the hot list? */
  predicate StaysHot(pg: Page, now: nat) {
    && pg.hot
    && Decayed(pg.dramReads, pg.localClock, now) + Decayed(pg.nvmReads, pg.localClock, now) >= HOT_READ_THRESHOLD
  }

  /** Visiting the page the round started from ends the round. */
  function Visit(w: Sweep, p: PageId, cursor: Option<PageId>): Sweep {
    Sweep(cursor, if w.start == Some(p) then None else w.start, w.need && w.start != Some(p))
  }

  /** One iteration of `partial_cool` on the page p that `next_page` gave. */
  function CoolOne(s: State, dram: bool, p: PageId): State {
    var pg, w, hot := At(s.pages, p), s.SweepOf(dram), s.fifos.L(HotList(dram));
    if StaysHot(pg, s.clock) then WithSweep(s, dram, Visit(w, p, Some(p)))
    else
      WithSweep(s, dram, Visit(w, p, NextLink(hot, p))).(
        pages := s.pages[p := pg.(hot := false)],
        fifos := Relist(s.fifos, HotList(dram), ColdList(dram), p))
  }

  function CoolLoop(s: State, dram: bool, n: nat): State
    decreases n
  {
    if n == 0 then s
    else
      match NextPage(s.fifos.L(HotList(dram)), s.SweepOf(dram).cursor)
      case None => s
      case Some(p) => CoolLoop(CoolOne(s, dram, p), dram, n - 1)
  }

  /** `partial_cool` before its loop: remember where the round starts. */
  function BeginCool(s: State, dram: bool): State {
    var w, hot := s.SweepOf(dram), s.fifos.L(HotList(dram));
    if w.start == None && hot != [] then WithSweep(s, dram, w.(start := Some(hot[|hot| - 1]))) else s
  }

  function PartialCool(s: State, dram: bool): State {
    if !s.SweepOf(dram).need then s else CoolLoop(BeginCool(s, dram), dram, COOLING_PAGES)
  }

  // ---- the whole pass ----

  function Requests(s: State): State {
    ServeRing(ServeRing(DrainFree(s), true, HOT_RING_REQS_THRESHOLD), false, COLD_RING_REQS_THRESHOLD)
  }

  /** None: the `np != NULL` assertion fails. */
  function PolicyPass(s: State): Option<State> {
    match MigrateLoop(Requests(s), 0)
    case Finished(s1) => Some(PartialCool(PartialCool(s1, true), false))
    case Out(s1) => Some(s1)
    case Aborted => None
  }
}
