/**
 Access counters over whole runs: their bound, the request rings that never lose an entry, and lazy
 ageing against the eager scheme that halves every counter at every tick of the clock.
 */
module PebsAgeing {
  import opened Basics
  import opened Bits
  import opened PebsState
  import opened PebsSteps
  import opened PebsInvariant
  import opened PebsMigration
  import opened PebsRuns

  // ---- bounds ----

  /** After every run each counter is at most threshold + 1, and there only if the page has ticks to catch up on. */
  lemma CountersBounded(c: Config, ops: seq<Op>, p: PageId, j: Source)
    requires Run(Init(c), ops).Some? && p in Run(Init(c), ops).value.pages
    ensures var s := Run(Init(c), ops).value;
            && Count(s.pages[p], j) <= PEBS_COOLING_THRESHOLD + 1
            && (Count(s.pages[p], j) == PEBS_COOLING_THRESHOLD + 1 ==> s.pages[p].localClock < s.clock)
  {
    hide Run, Init;
    RunInv(c, ops);
    assert PageOkAt(Run(Init(c), ops).value, None, p);
  }

  /** With fewer pages than the rings' capacity no request is overwritten and no caller of unmap spins. */
  lemma RingsNeverOverflow(s: State, p: PageId, va: Address, frames: set<Frame>)
    requires Inv(s, frames) && |s.pages.Keys| < CAPACITY
    ensures p in s.pages && !s.pages[p].ringPresent ==>
              RingPut(s.rings.hot, p) == s.rings.hot + [p] && RingPut(s.rings.cold, p) == s.rings.cold + [p]
    ensures Unmap(s, va).Some?
  {
    hide NoDup, ListsOk, FramesOk, CursorsOk;
    forall q: PageId | q in s.rings.hot || q in s.rings.cold || q in s.rings.free ensures q in s.pages {
      assert EntryOk(s, q);
    }
    assert EntryOk(s, p);
    if p in s.pages && !s.pages[p].ringPresent {
      RingFits(s.rings.hot, p, s.pages.Keys);
      RingFits(s.rings.cold, p, s.pages.Keys);
    }
    if va in s.index {
      assert MappingOk(s, va) && PageOkAt(s, None, s.index[va]);
      RingFits(s.rings.free, s.index[va], s.pages.Keys);
    }
  }

  lemma RingFits(r: seq<PageId>, p: PageId, ids: set<PageId>)
    requires NoDup(r) && p !in r && p in ids && |ids| < CAPACITY && forall q :: q in r ==> q in ids
    ensures |r| < CAPACITY - 1
  {
    NoDupWithin(r, ids - {p});
  }

  // ---- shifts ----

  lemma ShrStep(x: nat, k: nat)
    ensures Shr(x, k + 1) == Shr(x, k) / 2
  {
    if k > 0 { ShrStep(x / 2, k - 1); }
  }

  lemma ShrZero(k: nat)
    ensures Shr(0, k) == 0
  {
  }

  lemma ShrNext(x: nat, k: nat)
    ensures Shr(x, k) <= Shr(x + 1, k) <= Shr(x, k) + 1
  {
    if k > 0 {
      ShrNext(x / 2, k - 1);
      assert (x + 1) / 2 == x / 2 || (x + 1) / 2 == x / 2 + 1;
    }
  }

  // ---- the eager scheme ----

  /** One page's counters under eager ageing. */
  datatype Eager = Eager(dram: nat, nvm: nat)

  const FRESH := Eager(0, 0)

  function EagerBump(e: Eager, j: Source): Eager {
    if j == DramRead then e.(dram := e.dram + 1) else e.(nvm := e.nvm + 1)
  }

  function EagerTick(e: Eager): Eager { Eager(e.dram / 2, e.nvm / 2) }

  /** Page p's eager counters after step op of state s: add one per sample, halve at each tick, clear on unmap. */
  function EagerStep(s: State, op: Op, p: PageId, e: Eager): Eager {
    match op
    case SampleAt(va, j) =>
      if va !in s.index || At(s.pages, s.index[va]).va == 0 then e
      else
        var q := s.index[va];
        var e1 := if q == p then EagerBump(e, j) else e;
        if Ticks(At(s.pages, q), j, s.clock) then EagerTick(e1) else e1
    case UnmapAt(va) => if va in s.index && s.index[va] == p then FRESH else e
    case _ => e
  }

  function EagerRun(s: State, ops: seq<Op>, p: PageId, e: Eager): Eager
    decreases |ops|
  {
    if ops == [] then e
    else match Step(s, ops[0])
      case None => e
      case Some(s1) => EagerRun(s1, ops[1..], p, EagerStep(s, ops[0], p, e))
  }

  /** The eager count is the lazy one, or the lazy one as if one more access had been counted before it aged. */
  ghost predicate Tracks(count: nat, d: nat, e: nat) {
    e == Shr(count, d) || e == Shr(count + 1, d)
  }

  ghost predicate TracksPage(pg: Page, now: nat, e: Eager) {
    && pg.localClock <= now
    && Tracks(pg.dramReads, now - pg.localClock, e.dram) && Tracks(pg.nvmReads, now - pg.localClock, e.nvm)
  }

  lemma TrackTick(count: nat, d: nat, e: nat)
    requires Tracks(count, d, e)
    ensures Tracks(count, d + 1, e / 2)
  {
    ShrStep(count, d);
    ShrStep(count + 1, d);
  }

  lemma TrackBump(count: nat, d: nat, e: nat)
    requires Tracks(count, d, e)
    ensures Tracks(Shr(count + 1, d), 0, e + 1)
  {
    ShrNext(count, d);
  }

  lemma TrackAge(count: nat, d: nat, e: nat)
    requires Tracks(count, d, e)
    ensures Tracks(Shr(count, d), 0, e)
  {
    ShrNext(count, d);
  }

  lemma TrackPageTick(pg: Page, now: nat, e: Eager)
    requires TracksPage(pg, now, e)
    ensures TracksPage(pg, now + 1, EagerTick(e))
  {
    TrackTick(pg.dramReads, now - pg.localClock, e.dram);
    TrackTick(pg.nvmReads, now - pg.localClock, e.nvm);
  }

  lemma TrackSampled(pg: Page, j: Source, now: nat, e: Eager)
    requires TracksPage(pg, now, e)
    ensures TracksPage(Sampled(pg, j, now), now, EagerBump(e, j))
  {
    var d := now - pg.localClock;
    if j == DramRead {
      TrackBump(pg.dramReads, d, e.dram);
      TrackAge(pg.nvmReads, d, e.nvm);
    } else {
      TrackAge(pg.dramReads, d, e.dram);
      TrackBump(pg.nvmReads, d, e.nvm);
    }
  }

  lemma TrackSample(s: State, q: PageId, j: Source, p: PageId, e: Eager)
    requires q in s.pages && p in s.pages && TracksPage(s.pages[p], s.clock, e)
    ensures var e1 := if q == p then EagerBump(e, j) else e;
            var s1 := SamplePage(s, q, j);
            p in s1.pages && TracksPage(s1.pages[p], s1.clock, if Ticks(s.pages[q], j, s.clock) then EagerTick(e1) else e1)
  {
    hide TracksPage, Sampled, File;
    var e1 := if q == p then EagerBump(e, j) else e;
    if q == p { TrackSampled(s.pages[p], j, s.clock, e); }
    TrackPageTick(SamplePage(s, q, j).pages[p], s.clock, e1);
  }

  lemma StepTracks(s: State, op: Op, p: PageId, e: Eager, frames: set<Frame>)
    requires Inv(s, frames) && Step(s, op).Some? && p in s.pages && TracksPage(s.pages[p], s.clock, e)
    ensures var s1 := Step(s, op).value;
            p in s1.pages && TracksPage(s1.pages[p], s1.clock, EagerStep(s, op, p, e))
  {
    hide InvHolding, PolicyPass, SamplePage;
    match op
    case AllocateAt(va) =>
    case UnmapAt(va) =>
      if va in s.index && s.index[va] == p { ShrZero(s.clock - s.pages[p].localClock); }
    case SampleAt(va, j) =>
      if va in s.index {
        IndexedPresent(s, va, frames);
        TrackSample(s, s.index[va], j, p, e);
      }
    case Pass =>
      PolicyPassInv(s, frames);
      assert CountsKept(s, PolicyPass(s).value, p);
  }

  lemma {:induction false} RunTracks(s: State, ops: seq<Op>, p: PageId, e: Eager, frames: set<Frame>)
    requires Inv(s, frames) && Run(s, ops).Some? && p in s.pages && TracksPage(s.pages[p], s.clock, e)
    ensures var s1 := Run(s, ops).value;
            p in s1.pages && TracksPage(s1.pages[p], s1.clock, EagerRun(s, ops, p, e))
    decreases |ops|
  {
    hide Inv, Step, EagerStep;
    if ops != [] {
      StepKeepsInv(s, ops[0], frames);
      StepTracks(s, ops[0], p, e, frames);
      RunTracks(Step(s, ops[0]).value, ops[1..], p, EagerStep(s, ops[0], p, e), frames);
    }
  }

  /** On every run the lazily aged count is the eager count or one less. */
  lemma LazyTracksEager(c: Config, ops: seq<Op>, p: PageId)
    requires p in Init(c).pages && Run(Init(c), ops).Some?
    ensures p in Run(Init(c), ops).value.pages
    ensures var s := Run(Init(c), ops).value;
            var e := EagerRun(Init(c), ops, p, FRESH);
            var pg := s.pages[p];
            && Decayed(pg.dramReads, pg.localClock, s.clock) <= e.dram <= Decayed(pg.dramReads, pg.localClock, s.clock) + 1
            && Decayed(pg.nvmReads, pg.localClock, s.clock) <= e.nvm <= Decayed(pg.nvmReads, pg.localClock, s.clock) + 1
  {
    InitInv(c);
    hide Inv, Run, EagerRun;
    RunTracks(Init(c), ops, p, FRESH, Frames(c));
    var s := Run(Init(c), ops).value;
    var pg := s.pages[p];
    ShrNext(pg.dramReads, s.clock - pg.localClock);
    ShrNext(pg.nvmReads, s.clock - pg.localClock);
  }

  // ---- the bound is tight ----

  /** n DRAM samples of the page at address va, then one NVM sample. */
  function Samples(va: Address, n: nat): seq<Op> {
    if n == 0 then [SampleAt(va, NvmRead)] else [SampleAt(va, DramRead)] + Samples(va, n - 1)
  }

  ghost predicate Sampling(s: State, va: Address, p: PageId, k: nat) {
    && va != 0 && va in s.index && s.index[va] == p && p in s.pages && s.pages[p].va == va
    && s.clock == 0 && s.pages[p].localClock == 0 && s.pages[p].dramReads == k && s.pages[p].nvmReads == 0
  }

  /** The sample that ticks the clock leaves the page behind, and the next NVM sample is aged before it counts. */
  lemma {:induction false} SamplesGap(s: State, va: Address, p: PageId, k: nat)
    requires Sampling(s, va, p, k) && k < PEBS_COOLING_THRESHOLD + 1
    ensures var ops := Samples(va, PEBS_COOLING_THRESHOLD + 1 - k);
            && Run(s, ops).Some?
            && p in Run(s, ops).value.pages
            && Run(s, ops).value.pages[p].nvmReads == 0
            && Run(s, ops).value.pages[p].localClock == Run(s, ops).value.clock
            && EagerRun(s, ops, p, Eager(k, 0)).nvm == 1
    decreases PEBS_COOLING_THRESHOLD - k
  {
    var ops := Samples(va, PEBS_COOLING_THRESHOLD + 1 - k);
    var s1, e1 := Sample(s, va, DramRead), EagerStep(s, ops[0], p, Eager(k, 0));
    assert Step(s, ops[0]) == Some(s1);
    assert ops[1..] == Samples(va, PEBS_COOLING_THRESHOLD - k);
    if k < PEBS_COOLING_THRESHOLD {
      assert Sampling(s1, va, p, k + 1) && e1 == Eager(k + 1, 0);
      SamplesGap(s1, va, p, k + 1);
    } else {
      var last := [SampleAt(va, NvmRead)];
      assert ops[1..] == last;
      var s2 := Sample(s1, va, NvmRead);
      assert s1.clock == 1 && s1.pages[p].dramReads == 25 && s1.pages[p].nvmReads == 0 && e1.nvm == 0;
      assert Shr(1, 1) == 0 && Shr(25, 1) == 12;
      assert s2.pages[p].nvmReads == 0 && s2.clock == 1;
      assert last[1..] == [] && Step(s1, last[0]) == Some(s2);
      assert Run(s2, []) == Some(s2);
      assert Run(s1, last) == Some(s2);
      assert EagerRun(s1, last, p, e1).nvm == 1;
    }
  }

  /** A machine with one DRAM page reaches the gap of one. */
  lemma GapOfOneIsReached(va: Address)
    requires va != 0 && va % HUGEPAGE_SIZE == 0
    ensures exists c: Config, ops: seq<Op>, p: PageId ::
              && Run(Init(c), ops).Some? && p in Run(Init(c), ops).value.pages
              && var s := Run(Init(c), ops).value;
                 EagerRun(Init(c), ops, p, FRESH).nvm == Decayed(s.pages[p].nvmReads, s.pages[p].localClock, s.clock) + 1
  {
    var c := Config(1, 0, 0, 0);
    var s := Init(c);
    assert Enqueued(0, 1) == [0];
    assert s.fifos.L(DramFree) == [0] && 0 in s.pages;
    var s1 := AllocateFrom(s, true, va);
    assert Step(s, AllocateAt(va)) == Some(s1);
    assert Sampling(s1, va, 0, 0);
    var rest := Samples(va, PEBS_COOLING_THRESHOLD + 1);
    SamplesGap(s1, va, 0, 0);
    var ops := [AllocateAt(va)] + rest;
    assert ops[0] == AllocateAt(va) && ops[1..] == rest;
    assert Run(s, ops) == Run(s1, rest);
    assert EagerRun(s, ops, 0, FRESH) == EagerRun(s1, rest, 0, FRESH);
  }
}
