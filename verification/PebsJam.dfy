/**
 A run that ends in the failing assertion of the migration loop: two frames, both in use, and a page
 in NVM that has become hot.
 */
module PebsJam {
  import opened Basics
  import opened Bits
  import opened PebsState
  import opened PebsSteps
  import opened PebsInvariant
  import opened PebsMigration
  import opened PebsRuns

  function NvmSamples(va: Address, n: nat): seq<Op> {
    if n == 0 then [] else [SampleAt(va, NvmRead)] + NvmSamples(va, n - 1)
  }

  /** Both frames are mapped, cold, and the page in NVM has been sampled k times. */
  ghost predicate Sampling(s: State, va: Address, k: nat) {
    && s.fifos.L(DramFree) == [] && s.fifos.L(NvmFree) == [] && s.fifos.L(DramCold) == [0] && s.fifos.L(NvmCold) == [1] && s.fifos.L(NvmHot) == []
    && va != 0 && va in s.index && s.index[va] == 1 && 1 in s.pages
    && s.pages[1] == Page(va, s.pages[1].frame, true, false, k >= HOT_READ_THRESHOLD, 0, 0, k) && !s.pages[1].frame.dram
    && s.clock == 0 && s.rings == Rings(if k >= HOT_READ_THRESHOLD then [1] else [], [], [])
    && s.nvmSweep.cursor == None && s.dramSweep.cursor == None
  }

  lemma OneSample(s: State, va: Address, k: nat)
    requires Sampling(s, va, k) && k < HOT_READ_THRESHOLD
    ensures Sampling(Sample(s, va, NvmRead), va, k + 1)
  {
    assert Shr(k + 1, 0) == k + 1;
    assert RingPut([], 1) == [1];
  }

  lemma {:induction false} SamplesRun(s: State, va: Address, k: nat)
    requires Sampling(s, va, k) && k <= HOT_READ_THRESHOLD
    ensures var ops := NvmSamples(va, HOT_READ_THRESHOLD - k);
            Run(s, ops).Some? && Sampling(Run(s, ops).value, va, HOT_READ_THRESHOLD)
    decreases HOT_READ_THRESHOLD - k
  {
    if k < HOT_READ_THRESHOLD {
      OneSample(s, va, k);
      var ops := NvmSamples(va, HOT_READ_THRESHOLD - k);
      assert ops[0] == SampleAt(va, NvmRead) && ops[1..] == NvmSamples(va, HOT_READ_THRESHOLD - (k + 1));
      hide Sampling, Sample;
      SamplesRun(Sample(s, va, NvmRead), va, k + 1);
    }
  }

  /** Its request served, the page in NVM is hot, and there is nowhere to put it. */
  lemma RequestJams(s: State, va: Address)
    requires Sampling(s, va, HOT_READ_THRESHOLD)
    ensures Jammed(Requests(s))
  {
    var s1 := Serve(PopRing(s, true), 1, true);
    assert Without([1], 1) == [];
    assert s1.fifos.L(NvmHot) == [1] && At(s1.pages, 1).nvmReads == HOT_READ_THRESHOLD;
    assert s1.rings == Rings([], [], []);
    assert ServeRing(s1, true, HOT_RING_REQS_THRESHOLD - 1) == s1;
    assert ServeRing(s, true, HOT_RING_REQS_THRESHOLD) == s1;
    assert Requests(s) == s1;
    assert 1 in s1.fifos.L(NvmHot) && !HasCooled(At(s1.pages, 1));
  }

  lemma FirstMapped(s: State)
    requires s == Init(Config(1, 1, 0, 0))
    ensures s.fifos.L(DramFree) == [0] && s.fifos.L(NvmFree) == [1] && 0 in s.pages && 1 in s.pages
    ensures s.pages[1] == BLANK_PAGE.(frame := s.pages[1].frame) && !s.pages[1].frame.dram
  {
    assert Enqueued(0, 1) == [0] && Enqueued(1, 1) == [1];
  }

  lemma TwoMapped(va0: Address, va1: Address, s: State, s2: State)
    requires s == Init(Config(1, 1, 0, 0)) && va0 != 0 && va1 != 0 && va0 != va1
    requires s.fifos.L(DramFree) == [0] && s.fifos.L(NvmFree) == [1]
    requires var s1 := AllocateFrom(s, true, va0); s1.fifos.L(NvmFree) == [1] && s2 == AllocateFrom(s1, false, va1)
    ensures Sampling(s2, va1, 0)
  {
    FirstMapped(s);
    hide Init;
    assert [0] + [] == [0] && [1] + [] == [1];
  }

  lemma RunTwo(s: State, s1: State, s2: State, a: Op, b: Op)
    requires Step(s, a) == Some(s1) && Step(s1, b) == Some(s2)
    ensures Run(s, [a, b]) == Some(s2)
  {
    assert [a, b][1..] == [b] && [b][1..] == [];
    assert Run(s1, [b]) == Some(s2);
  }

  lemma MapBoth(va0: Address, va1: Address) returns (s2: State)
    requires va0 != 0 && va1 != 0 && va0 != va1 && va0 % HUGEPAGE_SIZE == 0 && va1 % HUGEPAGE_SIZE == 0
    ensures Run(Init(Config(1, 1, 0, 0)), [AllocateAt(va0), AllocateAt(va1)]) == Some(s2) && Sampling(s2, va1, 0)
  {
    var s0 := Init(Config(1, 1, 0, 0));
    FirstMapped(s0);
    var s1 := AllocateFrom(s0, true, va0);
    s2 := AllocateFrom(s1, false, va1);
    TwoMapped(va0, va1, s0, s2);
    hide Sampling;
    RunTwo(s0, s1, s2, AllocateAt(va0), AllocateAt(va1));
  }

  lemma {:induction false} RunConcat(s: State, a: seq<Op>, b: seq<Op>)
    requires Run(s, a).Some?
    ensures Run(s, a + b) == Run(Run(s, a).value, b)
    decreases |a|
  {
    if a == [] {
      assert a + b == b;
    } else {
      assert (a + b)[0] == a[0] && (a + b)[1..] == a[1..] + b;
      RunConcat(Step(s, a[0]).value, a[1..], b);
    }
  }

  /** A run of ten steps from initialisation after which the policy pass fails its assertion. */
  lemma JamIsReached(va0: Address, va1: Address)
    requires va0 != 0 && va1 != 0 && va0 != va1 && va0 % HUGEPAGE_SIZE == 0 && va1 % HUGEPAGE_SIZE == 0
    ensures exists c: Config, ops: seq<Op> :: Run(Init(c), ops).Some? && Step(Run(Init(c), ops).value, Pass) == None
  {
    hide Run, Init, NvmSamples, Sampling, AllocateFrom, Inv, PolicyPass;
    var c := Config(1, 1, 0, 0);
    var first, rest := [AllocateAt(va0), AllocateAt(va1)], NvmSamples(va1, HOT_READ_THRESHOLD);
    var s2 := MapBoth(va0, va1);
    SamplesRun(s2, va1, 0);
    RunConcat(Init(c), first, rest);
    RunInv(c, first + rest);
    var s := Run(Init(c), first + rest).value;
    RequestJams(s, va1);
    PolicyPassInv(s, Frames(c));
    assert Step(s, Pass) == None;
  }
}
