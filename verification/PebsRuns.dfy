/**
 Runs of the page manager from initialisation: the invariant on every run, request rings that never
 lose an entry, and lazy ageing against the eager scheme it stands for.
 */
module PebsRuns {
  import opened Basics
  import opened PebsState
  import opened PebsSteps
  import opened PebsInvariant
  import opened PebsPreservation
  import opened PebsMigration
  import opened PebsCooling

  // ---- one pass of the policy thread ----

  lemma DrainFreeKeeps(s: State, frames: set<Frame>)
    requires Inv(s, frames)
    ensures KeepsCounts(s, DrainFree(s)) && DrainFree(s).FreeFrames() == s.FreeFrames() + |s.rings.free|
    decreases |s.rings.free|
  {
    if s.rings.free == [] {
      forall q: PageId ensures CountsKept(s, s, q) { }
    } else {
      hide Inv;
      FreeOneInv(s, frames);
      FreeOneKeeps(s, frames);
      DrainFreeKeeps(FreeOne(s), frames);
      KeepsCountsTransitive(s, FreeOne(s), DrainFree(FreeOne(s)));
    }
  }

  /** A waiting page is on a hot or cold list, so freeing it makes one more frame free. */
  lemma FreeOneKeeps(s: State, frames: set<Frame>)
    requires Inv(s, frames) && s.rings.free != []
    ensures KeepsCounts(s, FreeOne(s)) && FreeOne(s).FreeFrames() == s.FreeFrames() + 1
  {
    var p := s.rings.free[0];
    assert p in s.rings.free;
    assert EntryOk(s, p) && PageOkAt(s, None, p);
    hide ListsOk, IndexOk, FramesOk, RingsOk, CursorsOk, PagesOk, MoveCursor, Without;
    forall q: PageId ensures CountsKept(s, FreeOne(s), q) { }
  }

  lemma ServeRingKeeps(s: State, hot: bool, budget: nat, frames: set<Frame>)
    requires Inv(s, frames) && s.rings.free == []
    ensures KeepsCounts(s, ServeRing(s, hot, budget))
    decreases |Ring(s, hot)|
  {
    if Ring(s, hot) == [] || budget == 0 {
      forall q: PageId ensures CountsKept(s, s, q) { }
    } else {
      hide Inv, Serve;
      var p, s1 := Ring(s, hot)[0], PopRing(s, hot);
      var s2 := Serve(s1, p, hot);
      PopRingInv(s, hot, frames);
      ServeInv(s1, p, hot, frames);
      ServeKeeps(s, s1, p, hot);
      ServeRingKeeps(s2, hot, if At(s.pages, p).present then budget - 1 else budget, frames);
      KeepsCountsTransitive(s, s2, ServeRing(s, hot, budget));
    }
  }

  lemma ServeKeeps(s: State, s1: State, p: PageId, to: bool)
    requires p in s.pages && s1 == s.(rings := s1.rings)
    ensures KeepsCounts(s, Serve(s1, p, to)) && Serve(s1, p, to).rings == s1.rings
  {
    hide MoveCursors, MakeTemp, Serve;
    if s1.pages[p].present { ServeEffect(s1, p, to); } else { ServeStale(s1, p, to); }
    forall q: PageId ensures CountsKept(s, Serve(s1, p, to), q) { }
  }

  lemma ServeStale(s: State, p: PageId, to: bool)
    requires p in s.pages && !s.pages[p].present
    ensures Serve(s, p, to) == s
  {
  }

  lemma RequestsInv(s: State, frames: set<Frame>)
    requires Inv(s, frames)
    ensures Inv(Requests(s), frames) && Requests(s).rings.free == [] && KeepsCounts(s, Requests(s))
  {
    hide Inv, ServeRing, DrainFree;
    var s1 := DrainFree(s);
    DrainFreeInv(s, frames);
    DrainFreeKeeps(s, frames);
    var s2 := ServeRing(s1, true, HOT_RING_REQS_THRESHOLD);
    ServeRingInv(s1, true, HOT_RING_REQS_THRESHOLD, frames);
    ServeRingKeeps(s1, true, HOT_RING_REQS_THRESHOLD, frames);
    ServeRingInv(s2, false, COLD_RING_REQS_THRESHOLD, frames);
    ServeRingKeeps(s2, false, COLD_RING_REQS_THRESHOLD, frames);
    KeepsCountsTransitive(s, s1, s2);
    KeepsCountsTransitive(s, s2, Requests(s));
  }

  lemma PolicyPassInv(s: State, frames: set<Frame>)
    requires Inv(s, frames)
    ensures PolicyPass(s).Some? ==> Inv(PolicyPass(s).value, frames) && KeepsCounts(s, PolicyPass(s).value)
    ensures PolicyPass(s) == None <==> Jammed(Requests(s))
  {
    hide Inv, Requests, MigrateLoop, PartialCool;
    var s1 := Requests(s);
    RequestsInv(s, frames);
    MigrateLoopInv(s1, 0, frames);
    MigrateLoopAborts(s1, 0, frames);
    var e := MigrateLoop(s1, 0);
    if !e.Aborted? {
      KeepsCountsTransitive(s, s1, e.state);
      if e.Finished? {
        var s2 := PartialCool(e.state, true);
        PartialCoolInv(e.state, true, frames);
        PartialCoolInv(s2, false, frames);
        KeepsCountsTransitive(s, e.state, s2);
        KeepsCountsTransitive(s, s2, PartialCool(s2, false));
      }
    }
  }

  /** With a frame free, or one waiting in the free ring, a pass never hits the assertion. */
  lemma PassNeedsOneFrame(s: State, frames: set<Frame>)
    requires Inv(s, frames) && s.FreeFrames() + |s.rings.free| > 0
    ensures PolicyPass(s).Some?
  {
    hide Inv, ServeRing, DrainFree, MigrateLoop, PartialCool;
    DrainFreeInv(s, frames);
    DrainFreeKeeps(s, frames);
    var s1 := DrainFree(s);
    ServeRingFrames(s1, true, HOT_RING_REQS_THRESHOLD);
    var s2 := ServeRing(s1, true, HOT_RING_REQS_THRESHOLD);
    ServeRingFrames(s2, false, COLD_RING_REQS_THRESHOLD);
    PolicyPassInv(s, frames);
  }

  lemma ServeRingFrames(s: State, hot: bool, budget: nat)
    ensures ServeRing(s, hot, budget).FreeFrames() == s.FreeFrames()
    decreases |Ring(s, hot)|
  {
    if Ring(s, hot) != [] && budget != 0 {
      hide MoveCursors, Without;
      var p := Ring(s, hot)[0];
      var s2 := Serve(PopRing(s, hot), p, hot);
      assert s2.FreeFrames() == s.FreeFrames();
      ServeRingFrames(s2, hot, if At(s.pages, p).present then budget - 1 else budget);
    }
  }

  // ---- initialisation ----

  /** Sizes in pages and device offsets in bytes. */
  datatype Config = Config(dramPages: nat, nvmPages: nat, dramOffset: nat, nvmOffset: nat)

  function FrameNo(c: Config, i: PageId): Frame {
    if i < c.dramPages then Frame(true, i * HUGEPAGE_SIZE + c.dramOffset)
    else Frame(false, (i - c.dramPages) * HUGEPAGE_SIZE + c.nvmOffset)
  }

  function FreeListOf(c: Config, i: PageId): ListId { FreeList(i < c.dramPages) }

  function Frames(c: Config): set<Frame> {
    set i: PageId | i < c.dramPages + c.nvmPages :: FrameNo(c, i)
  }

  /** n pages numbered from lo, enqueued one after the other. */
  function Enqueued(lo: nat, n: nat): seq<PageId> {
    if n == 0 then [] else [lo + n - 1] + Enqueued(lo, n - 1)
  }

  function FirstPages(c: Config, n: nat): Pages {
    map i: PageId | i < n :: BLANK_PAGE.(frame := FrameNo(c, i))
  }

  function FirstHomes(c: Config, n: nat): map<PageId, ListId> {
    map i: PageId | i < n :: FreeListOf(c, i)
  }

  /** `pebs_init` */
  function Init(c: Config): State {
    State(
      FirstPages(c, c.dramPages + c.nvmPages),
      Fifos(map[DramFree := Enqueued(0, c.dramPages), NvmFree := Enqueued(c.dramPages, c.nvmPages)],
            FirstHomes(c, c.dramPages + c.nvmPages)),
      Rings([], [], []), 0, Sweep(None, None, false), Sweep(None, None, false), map[])
  }

  /** Creating one more page structure and enqueueing it. */
  lemma OneMorePage(c: Config, n: nat)
    ensures FirstPages(c, n)[n := BLANK_PAGE.(frame := FrameNo(c, n))] == FirstPages(c, n + 1)
    ensures FirstHomes(c, n)[n := FreeListOf(c, n)] == FirstHomes(c, n + 1)
  {
    hide FrameNo;
  }

  lemma EnqueuedFacts(lo: nat, n: nat)
    ensures NoDup(Enqueued(lo, n)) && forall i: PageId :: i in Enqueued(lo, n) <==> lo <= i < lo + n
  {
    if n > 0 {
      EnqueuedFacts(lo, n - 1);
      ConsFacts(lo + n - 1, Enqueued(lo, n - 1));
    }
  }

  lemma FrameNoInjective(c: Config, i: PageId, j: PageId)
    requires i != j
    ensures FrameNo(c, i) != FrameNo(c, j)
  {
  }

  lemma InitFrames(c: Config)
    ensures FramesOk(Init(c).pages, Frames(c))
  {
    var pages := Init(c).pages;
    forall p: PageId, q: PageId ensures Apart(pages, p, q) {
      if p != q { FrameNoInjective(c, p, q); }
    }
    hide FrameNo;
    ImageSize(pages, pages.Keys);
    var image := set p | p in pages.Keys :: pages[p].frame;
    forall f | f in Frames(c) ensures f in image {
      var i: PageId :| i < c.dramPages + c.nvmPages && f == FrameNo(c, i);
      assert i in pages && pages[i].frame == f;
    }
    assert image == Frames(c);
  }

  lemma InitLists(c: Config)
    ensures ListsOk(Init(c).fifos)
  {
    var f := Init(c).fifos;
    EnqueuedFacts(0, c.dramPages);
    EnqueuedFacts(c.dramPages, c.nvmPages);
    hide Enqueued;
    forall l: ListId ensures ListOk(f, l) {
      if l != DramFree && l != NvmFree { assert f.L(l) == []; }
    }
    forall p: PageId ensures HomeOk(f, p) { assert p in f.home ==> f.home[p] == FreeListOf(c, p); }
  }

  lemma InitInv(c: Config)
    ensures Inv(Init(c), Frames(c))
  {
    InitLists(c);
    InitFrames(c);
    hide FramesOk, ListsOk;
    var s := Init(c);
    forall p: PageId ensures PageOkAt(s, None, p) && IndexedOk(s, p) { }
  }

  // ---- runs ----

  datatype Op = AllocateAt(va: Address) | UnmapAt(va: Address) | SampleAt(va: Address, source: Source) | Pass

  /** None: the step is not possible in s, or it aborts the program. */
  function Step(s: State, op: Op): Option<State> {
    match op
    case AllocateAt(va) => if Mappable(s, va) then Allocate(s, va) else None
    case UnmapAt(va) => Unmap(s, va)
    case SampleAt(va, j) => Some(Sample(s, va, j))
    case Pass => PolicyPass(s)
  }

  function Run(s: State, ops: seq<Op>): Option<State>
    decreases |ops|
  {
    if ops == [] then Some(s)
    else match Step(s, ops[0])
      case None => None
      case Some(s1) => Run(s1, ops[1..])
  }

  lemma StepKeepsInv(s: State, op: Op, frames: set<Frame>)
    requires Inv(s, frames) && Step(s, op).Some?
    ensures Inv(Step(s, op).value, frames)
  {
    hide InvHolding, PolicyPass;
    match op
    case AllocateAt(va) => AllocateInv(s, s.fifos.L(DramFree) != [], va, frames);
    case UnmapAt(va) => UnmapInv(s, va, frames);
    case SampleAt(va, j) =>
      if va in s.index {
        IndexedPresent(s, va, frames);
        SampleInv(s, s.index[va], j, frames);
      }
    case Pass => PolicyPassInv(s, frames);
  }

  lemma IndexedPresent(s: State, va: Address, frames: set<Frame>)
    requires Inv(s, frames) && va in s.index
    ensures s.index[va] in s.pages && s.pages[s.index[va]].present && s.pages[s.index[va]].va == va
  {
    assert MappingOk(s, va);
  }

  lemma {:induction false} RunFromKeepsInv(s: State, ops: seq<Op>, frames: set<Frame>)
    requires Inv(s, frames) && Run(s, ops).Some?
    ensures Inv(Run(s, ops).value, frames)
    decreases |ops|
  {
    hide Inv, Step;
    if ops != [] {
      StepKeepsInv(s, ops[0], frames);
      RunFromKeepsInv(Step(s, ops[0]).value, ops[1..], frames);
    }
  }

  /** The invariant holds after every run from initialisation. */
  lemma RunInv(c: Config, ops: seq<Op>)
    requires Run(Init(c), ops).Some?
    ensures Inv(Run(Init(c), ops).value, Frames(c))
  {
    hide Inv, Run;
    InitInv(c);
    RunFromKeepsInv(Init(c), ops, Frames(c));
  }
}
