/**
 The migration loop as one transformation of lists and frames: which pages it promotes, which it sets
 aside as cooled, which it evicts to make room, and where it stops.
 */
module PebsPromotion {
  import opened Basics
  import opened PebsState
  import opened PebsSteps
  import opened PebsInvariant
  import opened PebsMigration

  // ---- what m iterations do ----

  /** Accessed often enough to be promoted. */
  function Popular(s: State): PageId -> bool {
    (p: PageId) => At(s.pages, p).dramReads + At(s.pages, p).nvmReads >= HOT_READ_THRESHOLD
  }

  function Unpopular(s: State): PageId -> bool { (p: PageId) => !Popular(s)(p) }

  /** The last m entries of a list: the m oldest. */
  function Oldest(xs: seq<PageId>, m: nat): seq<PageId>
    requires m <= |xs|
  {
    xs[|xs| - m..]
  }

  /** The list without its m oldest entries, the next one moved to the front if it was put back. */
  function Rest(xs: seq<PageId>, m: nat, back: bool): seq<PageId>
    requires m <= |xs| && (back ==> m < |xs|)
  {
    if back then [xs[|xs| - m - 1]] + xs[..|xs| - m - 1] else xs[..|xs| - m]
  }

  /** Cold DRAM pages that must go for t promotions. */
  function Evictions(free: nat, t: nat): nat { if t <= free then 0 else t - free }

  /** A cursor on a page that was taken off the list restarts at the head of what is left. */
  function CursorLeft(cur: Option<PageId>, left: seq<PageId>): Option<PageId> {
    if cur.Some? && cur.value !in left then (if left == [] then None else Some(left[0])) else cur
  }

  function Promotions(s: State, m: nat): seq<PageId>
    requires m <= |s.fifos.L(NvmHot)|
  {
    Filter(Oldest(s.fifos.L(NvmHot), m), Popular(s))
  }

  /** A list has gained the pages of two others. */
  ghost predicate Joins(now: seq<PageId>, was: seq<PageId>, a: seq<PageId>, b: seq<PageId>) {
    forall q :: q in now <==> q in was || q in a || q in b
  }

  lemma JoinsAdd(xs0: seq<PageId>, xs1: seq<PageId>, xs2: seq<PageId>, a0: seq<PageId>, b0: seq<PageId>, a1: seq<PageId>, b1: seq<PageId>,
                 a: seq<PageId>)
    requires Joins(xs1, xs0, a0, b0) && Joins(xs2, xs1, a1, b1) && forall q :: q in a <==> q in a1 || q in a0
    ensures Joins(xs2, xs0, a, b1 + b0)
  {
  }

  /** The lists when the pages `up` have been promoted, `aside` set aside as cooled, and the e oldest cold DRAM pages evicted. */
  ghost predicate ListsMoved(f: Fifos, f': Fifos, left: seq<PageId>, up: seq<PageId>, aside: seq<PageId>, e: nat) {
    && e <= |f.L(DramCold)|
    && f'.L(NvmHot) == left
    && f'.L(DramHot) == up + f.L(DramHot)
    && f'.L(DramCold) == f.L(DramCold)[..|f.L(DramCold)| - e]
    && |f'.L(DramFree)| == |f.L(DramFree)| + e - |up|
    && Joins(f'.L(NvmCold), f.L(NvmCold), aside, Oldest(f.L(DramCold), e))
  }

  /** Evicting e0, then e1 of the rest. */
  lemma OldestSum(xs: seq<PageId>, xs1: seq<PageId>, e0: nat, e1: nat)
    requires e0 <= |xs| && xs1 == xs[..|xs| - e0] && e1 <= |xs1|
    ensures Oldest(xs, e0 + e1) == Oldest(xs1, e1) + Oldest(xs, e0)
    ensures xs1[..|xs1| - e1] == xs[..|xs| - (e0 + e1)]
  {
  }

  lemma ListsMovedAdd(f: Fifos, f1: Fifos, f2: Fifos, left1: seq<PageId>, up0: seq<PageId>, aside0: seq<PageId>, e0: nat,
                      left: seq<PageId>, up1: seq<PageId>, aside1: seq<PageId>, e1: nat, aside: seq<PageId>)
    requires ListsMoved(f, f1, left1, up0, aside0, e0) && ListsMoved(f1, f2, left, up1, aside1, e1)
    requires forall q :: q in aside <==> q in aside1 || q in aside0
    ensures ListsMoved(f, f2, left, up1 + up0, aside, e0 + e1)
  {
    hide Fifos.L, Oldest, Joins;
    var cold, cold1 := f.L(DramCold), f1.L(DramCold);
    OldestSum(cold, cold1, e0, e1);
    JoinsAdd(f.L(NvmCold), f1.L(NvmCold), f2.L(NvmCold), aside0, Oldest(cold, e0), aside1, Oldest(cold1, e1), aside);
    Regroup(up1, up0, f.L(DramHot));
  }

  lemma Regroup(a: seq<PageId>, b: seq<PageId>, c: seq<PageId>)
    ensures a + (b + c) == a + b + c && |a + b| == |a| + |b|
  {
  }

  /** The lists after the m oldest hot NVM pages have been dealt with. */
  ghost predicate ListsMigrated(s: State, s': State, m: nat, back: bool) {
    var hot := s.fifos.L(NvmHot);
    && m <= |hot| && (back ==> m < |hot|)
    && ListsMoved(s.fifos, s'.fifos, Rest(hot, m, back), Promotions(s, m), Filter(Oldest(hot, m), Unpopular(s)),
                  Evictions(|s.fifos.L(DramFree)|, |Promotions(s, m)|))
  }

  /** Only promoted and evicted pages are in other frames than before. */
  ghost predicate FramesMigrated(s: State, s': State, m: nat) {
    && m <= |s.fifos.L(NvmHot)| && Evictions(|s.fifos.L(DramFree)|, |Promotions(s, m)|) <= |s.fifos.L(DramCold)|
    && var e := Evictions(|s.fifos.L(DramFree)|, |Promotions(s, m)|);
       forall q :: q in s.pages && s.pages[q].present && q !in Promotions(s, m) && q !in Oldest(s.fifos.L(DramCold), e) ==>
         At(s'.pages, q).frame == s.pages[q].frame
  }

  ghost predicate SweepsMigrated(s: State, s': State, m: nat, back: bool) {
    var hot := s.fifos.L(NvmHot);
    && m <= |hot| && (back ==> m < |hot|) && s'.dramSweep == s.dramSweep
    && s'.nvmSweep == s.nvmSweep.(cursor := CursorLeft(s.nvmSweep.cursor, hot[..|hot| - m - if back then 1 else 0]))
  }

  /** s' is s after the m oldest hot NVM pages have been dealt with and, if back, the next one was put back. */
  ghost predicate MigratedTo(s: State, s': State, m: nat, back: bool) {
    ListsMigrated(s, s', m, back) && FramesMigrated(s, s', m) && SweepsMigrated(s, s', m, back)
  }

  // ---- one iteration ----

  lemma OldestOne(xs: seq<PageId>, keep: PageId -> bool)
    requires xs != []
    ensures Oldest(xs, 1) == [xs[|xs| - 1]]
    ensures Filter(Oldest(xs, 1), keep) == if keep(xs[|xs| - 1]) then [xs[|xs| - 1]] else []
  {
    var one := [xs[|xs| - 1]];
    assert Oldest(xs, 1) == one && one[1..] == [];
  }

  lemma OldestNone(xs: seq<PageId>, keep: PageId -> bool)
    ensures Oldest(xs, 0) == [] && Filter(Oldest(xs, 0), keep) == []
  {
  }

  lemma PopSweep(s: State)
    requires ListsOk(s.fifos) && CursorsOk(s) && s.fifos.L(NvmHot) != []
    ensures var hot, s1 := s.fifos.L(NvmHot), PopHot(s);
            && s1.fifos.L(NvmHot) == hot[..|hot| - 1] && s1.pages == s.pages && s1.dramSweep == s.dramSweep
            && s1.nvmSweep == s.nvmSweep.(cursor := CursorLeft(s.nvmSweep.cursor, hot[..|hot| - 1]))
            && (forall l: ListId :: l != NvmHot ==> s1.fifos.L(l) == s.fifos.L(l))
  {
    var hot := s.fifos.L(NvmHot);
    assert ListOk(s.fifos, NvmHot);
    var rest, p := hot[..|hot| - 1], hot[|hot| - 1];
    assert hot == rest + [p];
    assert forall q :: q in hot <==> q in rest || q == p;
    assert p !in rest;
  }

  /** All lists but those of the given kinds are the same. */
  ghost predicate SameLists(f: Fifos, f': Fifos, but: set<ListId>) {
    forall l: ListId :: l !in but ==> f'.L(l) == f.L(l)
  }

  lemma CooledFacts(s: State)
    requires ListsOk(s.fifos) && CursorsOk(s) && MigrateOne(s).Cooled?
    ensures var hot, s' := s.fifos.L(NvmHot), MigrateOne(s).state;
            && hot != [] && !Popular(s)(hot[|hot| - 1])
            && s'.fifos.L(NvmHot) == hot[..|hot| - 1] && s'.fifos.L(NvmCold) == [hot[|hot| - 1]] + s.fifos.L(NvmCold)
            && SameLists(s.fifos, s'.fifos, {NvmHot, NvmCold})
            && s'.dramSweep == s.dramSweep && s'.nvmSweep == s.nvmSweep.(cursor := CursorLeft(s.nvmSweep.cursor, hot[..|hot| - 1]))
            && forall q :: q in s.pages ==> At(s'.pages, q).frame == s.pages[q].frame
  {
    PopSweep(s);
    hide ListsOk, CursorsOk, PopHot;
  }

  /** One iteration that does not put its page back, from what it did to the page, the lists and the sweeps. */
  lemma OneStep(s: State, s': State, e: nat)
    requires s.fifos.L(NvmHot) != [] && e <= |s.fifos.L(DramCold)| && e <= 1
    requires var hot, cold, free := s.fifos.L(NvmHot), s.fifos.L(DramCold), s.fifos.L(DramFree);
             var p := hot[|hot| - 1];
             var up := if Popular(s)(p) then [p] else [];
             && e == Evictions(|free|, |up|)
             && s'.fifos.L(NvmHot) == hot[..|hot| - 1] && s'.fifos.L(DramHot) == up + s.fifos.L(DramHot)
             && s'.fifos.L(DramCold) == cold[..|cold| - e] && |s'.fifos.L(DramFree)| == |free| + e - |up|
             && s'.fifos.L(NvmCold) == (if e == 1 then [cold[|cold| - 1]] else []) + (if Popular(s)(p) then [] else [p]) + s.fifos.L(NvmCold)
             && s'.dramSweep == s.dramSweep && s'.nvmSweep == s.nvmSweep.(cursor := CursorLeft(s.nvmSweep.cursor, hot[..|hot| - 1]))
             && forall q :: q in s.pages && s.pages[q].present && q !in up && !(e == 1 && q == cold[|cold| - 1]) ==>
                  At(s'.pages, q).frame == s.pages[q].frame
    ensures MigratedTo(s, s', 1, false)
  {
    var hot, cold := s.fifos.L(NvmHot), s.fifos.L(DramCold);
    var p := hot[|hot| - 1];
    OldestOne(hot, Popular(s));
    OldestOne(hot, Unpopular(s));
    OldestNone(cold, Popular(s));
    if e == 1 { OldestOne(cold, Popular(s)); }
    hide Oldest, Filter, Popular, Fifos.L;
    GainsBoth(s'.fifos.L(NvmCold), s.fifos.L(NvmCold), if Popular(s)(p) then [] else [p], Oldest(cold, e));
    hide Joins;
  }

  lemma GainsBoth(now: seq<PageId>, was: seq<PageId>, aside: seq<PageId>, evicted: seq<PageId>)
    requires now == evicted + aside + was
    ensures Joins(now, was, aside, evicted)
  {
  }

  lemma OneCooled(s: State)
    requires ListsOk(s.fifos) && CursorsOk(s) && MigrateOne(s).Cooled?
    ensures MigratedTo(s, MigrateOne(s).state, 1, false)
  {
    CooledFacts(s);
    hide ListsOk, CursorsOk, MigrateOne, Popular, MigratedTo, CursorLeft;
    var s', hot, cold, ncold := MigrateOne(s).state, s.fifos.L(NvmHot), s.fifos.L(DramCold), s.fifos.L(NvmCold);
    assert cold[..|cold|] == cold && [] + s.fifos.L(DramHot) == s.fifos.L(DramHot);
    assert [] + [hot[|hot| - 1]] + ncold == [hot[|hot| - 1]] + ncold;
    OneStep(s, s', 0);
  }

  lemma PromotedFacts(s: State, p: PageId)
    requires s.fifos.L(DramFree) != []
    ensures var s', free := Promote(s, p), s.fifos.L(DramFree);
            && s'.fifos.L(DramFree) == free[..|free| - 1] && s'.fifos.L(DramHot) == [p] + s.fifos.L(DramHot)
            && SameLists(s.fifos, s'.fifos, {DramFree, DramHot, NvmFree})
            && s'.dramSweep == s.dramSweep && s'.nvmSweep == s.nvmSweep
            && forall q :: q != p && q != free[|free| - 1] ==> At(s'.pages, q) == At(s.pages, q)
  {
  }

  lemma DemotedFacts(s: State)
    requires s.fifos.L(DramCold) != [] && s.fifos.L(NvmFree) != []
    ensures var s', cold, free := Demote(s), s.fifos.L(DramCold), s.fifos.L(NvmFree);
            && s'.fifos.L(DramCold) == cold[..|cold| - 1] && s'.fifos.L(NvmCold) == [cold[|cold| - 1]] + s.fifos.L(NvmCold)
            && s'.fifos.L(DramFree) == [free[|free| - 1]] + s.fifos.L(DramFree)
            && SameLists(s.fifos, s'.fifos, {DramCold, NvmCold, DramFree, NvmFree})
            && s'.dramSweep == s.dramSweep && s'.nvmSweep == s.nvmSweep
            && forall q :: q != cold[|cold| - 1] && q != free[|free| - 1] ==> At(s'.pages, q) == At(s.pages, q)
  {
  }

  lemma FreeNotPresent(s: State, dram: bool, frames: set<Frame>)
    requires Inv(s, frames) && s.fifos.L(FreeList(dram)) != []
    ensures var free := s.fifos.L(FreeList(dram)); free[|free| - 1] in s.pages && !s.pages[free[|free| - 1]].present
  {
    var free := s.fifos.L(FreeList(dram));
    assert ListOk(s.fifos, FreeList(dram)) && free[|free| - 1] in free;
    assert PageOkAt(s, None, free[|free| - 1]);
  }

  lemma InvParts(s: State, frames: set<Frame>)
    requires Inv(s, frames)
    ensures ListsOk(s.fifos) && CursorsOk(s)
  {
  }

  lemma PromotedState(s: State)
    requires MigrateOne(s).Promoted?
    ensures s.fifos.L(NvmHot) != []
    ensures var hot, s1 := s.fifos.L(NvmHot), PopHot(s);
            var p := hot[|hot| - 1];
            && Popular(s)(p)
            && (s1.fifos.L(DramFree) != [] ==> MigrateOne(s).state == Promote(s1, p))
            && (s1.fifos.L(DramFree) == [] ==>
                  && s1.fifos.L(DramCold) != [] && s1.fifos.L(NvmFree) != [] && Demote(s1).fifos.L(DramFree) != []
                  && MigrateOne(s).state == Promote(Demote(s1), p))
  {
    hide Promote;
    if s.fifos.L(DramFree) == [] { DemotedFacts(PopHot(s)); }
  }

  /** From the state with page p held to the state with p in DRAM. */
  ghost predicate Moved(s1: State, s': State, p: PageId, e: nat) {
    var cold, free, nfree := s1.fifos.L(DramCold), s1.fifos.L(DramFree), s1.fifos.L(NvmFree);
    && e <= 1 && (if e == 0 then free != [] else free == [] && cold != [] && nfree != [])
    && s'.fifos.L(NvmHot) == s1.fifos.L(NvmHot) && s'.fifos.L(DramHot) == [p] + s1.fifos.L(DramHot)
    && s'.fifos.L(DramCold) == cold[..|cold| - e] && |s'.fifos.L(DramFree)| == |free| + e - 1
    && s'.fifos.L(NvmCold) == (if e == 1 then [cold[|cold| - 1]] else []) + s1.fifos.L(NvmCold)
    && s'.dramSweep == s1.dramSweep && s'.nvmSweep == s1.nvmSweep
    && forall q :: q != p && !(e == 1 && q == cold[|cold| - 1]) && q != (if e == 0 then free[|free| - 1] else nfree[|nfree| - 1]) ==>
         At(s'.pages, q) == At(s1.pages, q)
  }

  lemma PromotedMoves(s1: State, p: PageId)
    requires s1.fifos.L(DramFree) != []
    ensures Moved(s1, Promote(s1, p), p, 0)
  {
    PromotedFacts(s1, p);
    hide Promote;
    var cold := s1.fifos.L(DramCold);
    assert cold[..|cold|] == cold && [] + s1.fifos.L(NvmCold) == s1.fifos.L(NvmCold);
  }

  lemma DemotedMoves(s1: State, p: PageId)
    requires s1.fifos.L(DramFree) == [] && s1.fifos.L(DramCold) != [] && s1.fifos.L(NvmFree) != []
    ensures Demote(s1).fifos.L(DramFree) != [] && Moved(s1, Promote(Demote(s1), p), p, 1)
  {
    DemotedFacts(s1);
    var s2, nfree := Demote(s1), s1.fifos.L(NvmFree);
    PromotedFacts(s2, p);
    hide Promote, Demote;
    assert s2.fifos.L(DramFree) == [nfree[|nfree| - 1]];
  }

  /** The same from the state before p was taken off its list. */
  lemma MovedStep(s: State, s1: State, s': State, e: nat)
    requires s.fifos.L(NvmHot) != []
    requires var hot := s.fifos.L(NvmHot);
             && s1.fifos.L(NvmHot) == hot[..|hot| - 1] && s1.pages == s.pages && s1.dramSweep == s.dramSweep
             && s1.nvmSweep == s.nvmSweep.(cursor := CursorLeft(s.nvmSweep.cursor, hot[..|hot| - 1]))
             && (forall l: ListId :: l != NvmHot ==> s1.fifos.L(l) == s.fifos.L(l))
             && Popular(s)(hot[|hot| - 1]) && Moved(s1, s', hot[|hot| - 1], e)
    requires forall dram: bool :: s.fifos.L(FreeList(dram)) != [] ==>
               var free := s.fifos.L(FreeList(dram)); free[|free| - 1] in s.pages && !s.pages[free[|free| - 1]].present
    ensures MigratedTo(s, s', 1, false)
  {
    hide Popular, CursorLeft, MigratedTo;
    var cold, ncold := s.fifos.L(DramCold), s.fifos.L(NvmCold);
    assert FreeList(true) == DramFree && FreeList(false) == NvmFree;
    if e == 1 {
      assert [cold[|cold| - 1]] + [] + ncold == [cold[|cold| - 1]] + ncold;
    } else {
      assert [] + [] + ncold == [] + ncold;
    }
    OneStep(s, s', e);
  }

  lemma OnePromoted(s: State, frames: set<Frame>)
    requires Inv(s, frames) && MigrateOne(s).Promoted?
    ensures MigratedTo(s, MigrateOne(s).state, 1, false)
  {
    InvParts(s, frames);
    PopSweep(s);
    PromotedState(s);
    forall dram: bool | s.fifos.L(FreeList(dram)) != []
      ensures var free := s.fifos.L(FreeList(dram)); free[|free| - 1] in s.pages && !s.pages[free[|free| - 1]].present
    {
      FreeNotPresent(s, dram, frames);
    }
    var s1, hot := PopHot(s), s.fifos.L(NvmHot);
    hide Inv, ListsOk, CursorsOk, PopHot, Promote, Demote, MigratedTo, CursorLeft, MigrateOne, Popular, Moved;
    if s1.fifos.L(DramFree) != [] {
      PromotedMoves(s1, hot[|hot| - 1]);
      MovedStep(s, s1, MigrateOne(s).state, 0);
    } else {
      DemotedMoves(s1, hot[|hot| - 1]);
      MovedStep(s, s1, MigrateOne(s).state, 1);
    }
  }

  lemma OneMigrated(s: State, frames: set<Frame>)
    requires Inv(s, frames) && (MigrateOne(s).Cooled? || MigrateOne(s).Promoted?)
    ensures MigratedTo(s, MigrateOne(s).state, 1, false) && s.fifos.L(NvmHot) != []
  {
    InvParts(s, frames);
    hide Inv, MigratedTo;
    if MigrateOne(s).Cooled? { OneCooled(s); } else { OnePromoted(s, frames); }
  }

  lemma OneBack(s: State, frames: set<Frame>)
    requires Inv(s, frames) && MigrateOne(s).DramAllHot?
    ensures MigratedTo(s, MigrateOne(s).state, 0, true)
    ensures s.fifos.L(DramFree) == [] == s.fifos.L(DramCold) && Popular(s)(s.fifos.L(NvmHot)[|s.fifos.L(NvmHot)| - 1])
  {
    InvParts(s, frames);
    PopSweep(s);
    hide Inv, ListsOk, CursorsOk, PopHot, CursorLeft;
    var hot, cold := s.fifos.L(NvmHot), s.fifos.L(DramCold);
    OldestNone(hot, Popular(s));
    OldestNone(hot, Unpopular(s));
    OldestNone(cold, Popular(s));
    hide Oldest, Filter;
    assert [] + s.fifos.L(DramHot) == s.fifos.L(DramHot);
  }

  // ---- iterations add up ----

  /** Taking the oldest m from a list is taking the oldest, then the oldest m - 1 of the rest. */
  lemma OldestStep(xs: seq<PageId>, xs1: seq<PageId>, m: nat, keep: PageId -> bool, keep1: PageId -> bool)
    requires 0 < m <= |xs| && xs1 == xs[..|xs| - 1] && forall q :: q in xs ==> keep(q) == keep1(q)
    ensures m - 1 <= |xs1| && Oldest(xs, m) == Oldest(xs1, m - 1) + Oldest(xs, 1)
    ensures Filter(Oldest(xs, m), keep) == Filter(Oldest(xs1, m - 1), keep1) + Filter(Oldest(xs, 1), keep)
  {
    assert Oldest(xs, m) == Oldest(xs1, m - 1) + Oldest(xs, 1);
    FilterConcat(Oldest(xs1, m - 1), Oldest(xs, 1), keep);
    FilterSame(Oldest(xs1, m - 1), keep, keep1);
  }

  lemma FilterSame(xs: seq<PageId>, f: PageId -> bool, g: PageId -> bool)
    requires forall x :: x in xs ==> f(x) == g(x)
    ensures Filter(xs, f) == Filter(xs, g)
  {
    if xs != [] { FilterSame(xs[1..], f, g); }
  }

  lemma PopularKept(s: State, s1: State, xs: seq<PageId>)
    requires KeepsCounts(s, s1) && forall q :: q in xs ==> q in s.pages
    ensures forall q :: q in xs ==> Popular(s)(q) == Popular(s1)(q) && Unpopular(s)(q) == Unpopular(s1)(q)
  {
    forall q | q in xs ensures Popular(s)(q) == Popular(s1)(q) { assert CountsKept(s, s1, q); }
  }

  /** What two stretches of iterations promote and evict. */
  lemma PromotionsAdd(s: State, s1: State, m: nat)
    requires ListsMigrated(s, s1, 1, false) && 0 < m <= |s.fifos.L(NvmHot)| && KeepsCounts(s, s1)
    requires forall q :: q in s.fifos.L(NvmHot) ==> q in s.pages
    ensures m - 1 <= |s1.fifos.L(NvmHot)| && Promotions(s, m) == Promotions(s1, m - 1) + Promotions(s, 1)
    ensures var hot, hot1 := s.fifos.L(NvmHot), s1.fifos.L(NvmHot);
            forall q :: q in Filter(Oldest(hot, m), Unpopular(s)) <==>
              q in Filter(Oldest(hot1, m - 1), Unpopular(s1)) || q in Filter(Oldest(hot, 1), Unpopular(s))
    ensures var free, free1 := |s.fifos.L(DramFree)|, |s1.fifos.L(DramFree)|;
            Evictions(free, |Promotions(s, m)|) == Evictions(free, |Promotions(s, 1)|) + Evictions(free1, |Promotions(s1, m - 1)|)
  {
    var hot, hot1 := s.fifos.L(NvmHot), s1.fifos.L(NvmHot);
    PopularKept(s, s1, hot);
    OldestStep(hot, hot1, m, Popular(s), Popular(s1));
    OldestStep(hot, hot1, m, Unpopular(s), Unpopular(s1));
    hide Oldest, Filter, Popular, Unpopular;
  }

  lemma ListsAdd(s: State, s1: State, s2: State, m: nat, back: bool)
    requires ListsMigrated(s, s1, 1, false) && 0 < m <= |s.fifos.L(NvmHot)| && ListsMigrated(s1, s2, m - 1, back)
    requires KeepsCounts(s, s1) && forall q :: q in s.fifos.L(NvmHot) ==> q in s.pages
    ensures ListsMigrated(s, s2, m, back)
  {
    hide ListsMoved, Promotions, Filter, Unpopular, Popular, Oldest, Evictions, Rest, KeepsCounts, Fifos.L;
    PromotionsAdd(s, s1, m);
    var hot, hot1, up0, up1 := s.fifos.L(NvmHot), s1.fifos.L(NvmHot), Promotions(s, 1), Promotions(s1, m - 1);
    RestOne(s, s1);
    RestStep(hot, m, back);
    ListsMovedAdd(s.fifos, s1.fifos, s2.fifos, Rest(hot, 1, false), up0, Filter(Oldest(hot, 1), Unpopular(s)), Evictions(|s.fifos.L(DramFree)|, |up0|),
                  Rest(hot1, m - 1, back), up1, Filter(Oldest(hot1, m - 1), Unpopular(s1)), Evictions(|s1.fifos.L(DramFree)|, |up1|),
                  Filter(Oldest(hot, m), Unpopular(s)));
  }

  lemma RestStep(xs: seq<PageId>, m: nat, back: bool)
    requires 0 < m <= |xs| && (back ==> m < |xs|)
    ensures Rest(xs, m, back) == Rest(xs[..|xs| - 1], m - 1, back)
  {
  }

  lemma FramesAdd(s: State, s1: State, s2: State, m: nat)
    requires ListsMigrated(s, s1, 1, false) && 0 < m <= |s.fifos.L(NvmHot)| && KeepsCounts(s, s1)
    requires FramesMigrated(s, s1, 1) && m - 1 <= |s1.fifos.L(NvmHot)| && FramesMigrated(s1, s2, m - 1)
    requires forall q :: q in s.fifos.L(NvmHot) ==> q in s.pages
    ensures FramesMigrated(s, s2, m)
  {
    PromotionsAdd(s, s1, m);
    var cold := s.fifos.L(DramCold);
    var up0, up1 := Promotions(s, 1), Promotions(s1, m - 1);
    var e0, e1 := Evictions(|s.fifos.L(DramFree)|, |up0|), Evictions(|s1.fifos.L(DramFree)|, |up1|);
    OldestSum(cold, s1.fifos.L(DramCold), e0, e1);
    hide Oldest, Filter, Promotions, Rest, Evictions, ListsMigrated;
    forall q | q in s.pages && s.pages[q].present && q !in Promotions(s, m) && q !in Oldest(cold, e0 + e1)
      ensures At(s2.pages, q).frame == s.pages[q].frame
    {
      assert CountsKept(s, s1, q);
    }
  }

  lemma SweepsAdd(s: State, s1: State, s2: State, m: nat, back: bool)
    requires SweepsMigrated(s, s1, 1, false) && 0 < m <= |s.fifos.L(NvmHot)| && SweepsMigrated(s1, s2, m - 1, back)
    requires s1.fifos.L(NvmHot) == s.fifos.L(NvmHot)[..|s.fifos.L(NvmHot)| - 1]
    ensures SweepsMigrated(s, s2, m, back)
  {
    var hot, hot1 := s.fifos.L(NvmHot), s1.fifos.L(NvmHot);
    var k := |hot| - m - if back then 1 else 0;
    assert hot1[..k] == hot[..k];
    var left, left1 := hot[..k], hot1;
    assert forall q :: q in left ==> q in left1;
    assert left != [] ==> left[0] == left1[0] && left1[0] in left;
  }

  lemma MigratedAdd(s: State, s1: State, s2: State, m: nat, back: bool)
    requires MigratedTo(s, s1, 1, false) && 0 < m <= |s.fifos.L(NvmHot)| && MigratedTo(s1, s2, m - 1, back)
    requires KeepsCounts(s, s1) && forall q :: q in s.fifos.L(NvmHot) ==> q in s.pages
    ensures MigratedTo(s, s2, m, back)
  {
    hide KeepsCounts, FramesMigrated, SweepsMigrated;
    ListsAdd(s, s1, s2, m, back);
    hide ListsMigrated;
    FramesAdd(s, s1, s2, m);
    assert s1.fifos.L(NvmHot) == s.fifos.L(NvmHot)[..|s.fifos.L(NvmHot)| - 1] by { RestOne(s, s1); }
    SweepsAdd(s, s1, s2, m, back);
  }

  lemma RestOne(s: State, s1: State)
    requires ListsMigrated(s, s1, 1, false)
    ensures s1.fifos.L(NvmHot) == s.fifos.L(NvmHot)[..|s.fifos.L(NvmHot)| - 1]
  {
  }

  // ---- the loop ----

  /** How a loop that began with so many bytes migrated has gone, when m pages have been dealt with. */
  ghost predicate LoopDone(s: State, migrated: nat, e: MigrationEnd, m: nat) {
    match e
    case Finished(s1) =>
      && MigratedTo(s, s1, m, false)
      && (m == |s.fifos.L(NvmHot)| || migrated + |Promotions(s, m)| * HUGEPAGE_SIZE >= PEBS_KSWAPD_MIGRATE_RATE)
      && (Promotions(s, m) != [] ==> migrated + (|Promotions(s, m)| - 1) * HUGEPAGE_SIZE < PEBS_KSWAPD_MIGRATE_RATE)
    case Out(s1) =>
      && MigratedTo(s, s1, m, true)
      && s1.fifos.L(DramFree) == [] && s1.fifos.L(DramCold) == [] && Popular(s)(s1.fifos.L(NvmHot)[0])
      && migrated + |Promotions(s, m)| * HUGEPAGE_SIZE < PEBS_KSWAPD_MIGRATE_RATE
    case Aborted => true
  }

  lemma NothingDone(s: State)
    requires CursorsOk(s)
    ensures MigratedTo(s, s, 0, false) && Promotions(s, 0) == []
  {
    var hot, cold := s.fifos.L(NvmHot), s.fifos.L(DramCold);
    OldestNone(hot, Popular(s));
    OldestNone(hot, Unpopular(s));
    OldestNone(cold, Popular(s));
    assert hot[..|hot|] == hot && cold[..|cold|] == cold && [] + s.fifos.L(DramHot) == s.fifos.L(DramHot);
    hide Oldest, Filter, Popular;
  }

  lemma HotInPages(s: State, frames: set<Frame>)
    requires Inv(s, frames)
    ensures forall q :: q in s.fifos.L(NvmHot) ==> q in s.pages
  {
    forall q | q in s.fifos.L(NvmHot) ensures q in s.pages { assert ListOk(s.fifos, NvmHot); }
  }

  lemma OnePromotion(s: State, frames: set<Frame>)
    requires Inv(s, frames) && (MigrateOne(s).Cooled? || MigrateOne(s).Promoted?) && s.fifos.L(NvmHot) != []
    ensures |Promotions(s, 1)| == if MigrateOne(s).Promoted? then 1 else 0
  {
    OldestOne(s.fifos.L(NvmHot), Popular(s));
  }

  /** One iteration, then the rest of the loop. */
  lemma LoopAdd(s: State, s1: State, migrated: nat, more: nat, e: MigrationEnd, m: nat)
    requires MigratedTo(s, s1, 1, false) && s.fifos.L(NvmHot) != [] && KeepsCounts(s, s1)
    requires migrated < PEBS_KSWAPD_MIGRATE_RATE && forall q :: q in s.fifos.L(NvmHot) ==> q in s.pages
    requires more == migrated + |Promotions(s, 1)| * HUGEPAGE_SIZE && |Promotions(s, 1)| <= 1 && LoopDone(s1, more, e, m)
    ensures LoopDone(s, migrated, e, m + 1)
  {
    hide MigratedTo, Promotions, KeepsCounts, Popular;
    if !e.Aborted? {
      PromotionsGrow(s, s1, e.state, m, e.Out?);
      MigratedAdd(s, s1, e.state, m + 1, e.Out?);
      if e.Out? {
        BackIsHead(s1, e.state, m);
        PopularKept(s, s1, s.fifos.L(NvmHot));
      }
    }
  }

  lemma PromotionsGrow(s: State, s1: State, s2: State, m: nat, back: bool)
    requires MigratedTo(s, s1, 1, false) && s.fifos.L(NvmHot) != [] && KeepsCounts(s, s1) && MigratedTo(s1, s2, m, back)
    requires forall q :: q in s.fifos.L(NvmHot) ==> q in s.pages
    ensures s1.fifos.L(NvmHot) == s.fifos.L(NvmHot)[..|s.fifos.L(NvmHot)| - 1] && m <= |s1.fifos.L(NvmHot)|
    ensures |Promotions(s, m + 1)| == |Promotions(s1, m)| + |Promotions(s, 1)|
  {
    RestOne(s, s1);
    PromotionsAdd(s, s1, m + 1);
    hide Promotions, KeepsCounts;
  }

  lemma BackIsHead(s: State, s1: State, m: nat)
    requires MigratedTo(s, s1, m, true)
    ensures s1.fifos.L(NvmHot) != [] && s1.fifos.L(NvmHot)[0] in s.fifos.L(NvmHot)
  {
  }

  /**
   The loop deals with the m oldest pages of the NVM hot list, for some m: those accessed often enough
   are promoted, in order, the others set aside; cold DRAM pages are evicted, oldest first, only when no
   DRAM frame is free. It stops at the end of the list or of the byte budget, or at a page for which
   DRAM has neither a free frame nor a cold page.
   */
  lemma MigrateLoopDoes(s: State, migrated: nat, frames: set<Frame>) returns (m: nat)
    requires Inv(s, frames) && s.rings.free == []
    ensures LoopDone(s, migrated, MigrateLoop(s, migrated), m)
    ensures MigrateLoop(s, migrated).Aborted? ==> m == 0
    decreases |s.fifos.L(NvmHot)|
  {
    m := 0;
    InvParts(s, frames);
    NothingDone(s);
    if migrated < PEBS_KSWAPD_MIGRATE_RATE {
      var one, e := MigrateOne(s), MigrateLoop(s, migrated);
      MigrateOneInv(s, frames);
      MigrateOneShrinks(s);
      HotInPages(s, frames);
      if one.Cooled? || one.Promoted? {
        OneMigrated(s, frames);
        OnePromotion(s, frames);
        hide Inv, MigratedTo, Promotions, MigrateOne, LoopDone, Popular, KeepsCounts;
        var more := if one.Cooled? then migrated else migrated + HUGEPAGE_SIZE;
        m := MigrateLoopDoes(one.state, more, frames);
        LoopAdd(s, one.state, migrated, more, e, m);
        m := if e.Aborted? then 0 else m + 1;
        assert e.Aborted? ==> LoopDone(s, migrated, e, 0) by { AbortedDone(s, migrated, e); }
      } else if one.DramAllHot? {
        OneBack(s, frames);
        OutAtOnce(s, one.state);
        hide Inv, MigratedTo, Promotions, MigrateOne, Popular;
      } else {
        hide Inv, MigratedTo, Promotions, Popular;
      }
    }
  }

  lemma AbortedDone(s: State, migrated: nat, e: MigrationEnd)
    ensures e.Aborted? ==> LoopDone(s, migrated, e, 0)
  {
  }

  lemma OutAtOnce(s: State, s1: State)
    requires MigratedTo(s, s1, 0, true) && s.fifos.L(DramFree) == [] == s.fifos.L(DramCold)
    requires Popular(s)(s.fifos.L(NvmHot)[|s.fifos.L(NvmHot)| - 1])
    ensures s1.fifos.L(DramFree) == [] == s1.fifos.L(DramCold) && s1.fifos.L(NvmHot) != [] && Popular(s)(s1.fifos.L(NvmHot)[0])
  {
    OldestNone(s.fifos.L(DramCold), Popular(s));
    OldestNone(s.fifos.L(NvmHot), Popular(s));
    hide Popular;
  }

  // ---- the same, page by page ----

  /** Where page q of the NVM hot list is after the loop. */
  ghost predicate HotFate(s: State, s1: State, q: PageId) {
    q in s.pages && q in s1.pages && q in s.fifos.L(NvmHot) && q !in s1.fifos.L(NvmHot) ==>
      if s.pages[q].dramReads + s.pages[q].nvmReads >= HOT_READ_THRESHOLD
      then q in s1.fifos.L(DramHot) && s1.pages[q].frame.dram && s1.pages[q].hot
      else q in s1.fifos.L(NvmCold) && !s1.pages[q].frame.dram && !s1.pages[q].hot
  }

  /** Where page q of the DRAM cold list is. */
  ghost predicate ColdFate(s: State, s1: State, q: PageId) {
    q in s1.pages && q in s.fifos.L(DramCold) && q !in s1.fifos.L(DramCold) ==>
      && q in s1.fifos.L(NvmCold) && !s1.pages[q].frame.dram && !s1.pages[q].hot
      && |s1.fifos.L(DramHot)| - |s.fifos.L(DramHot)| > |s.fifos.L(DramFree)|
  }

  lemma TakenAreOldest(xs: seq<PageId>, m: nat, back: bool, f: PageId -> bool, g: PageId -> bool, q: PageId)
    requires m <= |xs| && (back ==> m < |xs|) && q in xs && q !in Rest(xs, m, back) && (f(q) <==> !g(q))
    ensures q in Filter(Oldest(xs, m), f) || q in Filter(Oldest(xs, m), g)
  {
    var k := |xs| - m;
    assert xs == xs[..k] + Oldest(xs, m);
    if back { assert xs[..k] == xs[..k - 1] + [xs[k - 1]]; }
  }

  lemma ListedPage(s: State, l: ListId, q: PageId, frames: set<Frame>)
    requires Inv(s, frames) && q in s.fifos.L(l)
    ensures q in s.pages && s.pages[q].frame.dram == l.InDram() && (s.rings.free == [] ==> s.pages[q].hot == l.IsHot())
  {
    assert ListOk(s.fifos, l) && PageOkAt(s, None, q);
  }

  lemma HotFateHolds(s: State, s1: State, m: nat, back: bool, q: PageId, frames: set<Frame>)
    requires ListsMigrated(s, s1, m, back) && Inv(s1, frames) && s1.rings.free == []
    ensures HotFate(s, s1, q)
  {
    var hot := s.fifos.L(NvmHot);
    if q in s.pages && q in hot && q !in s1.fifos.L(NvmHot) {
      TakenAreOldest(hot, m, back, Popular(s), Unpopular(s), q);
      hide Inv, Filter, Oldest;
      if Popular(s)(q) { ListedPage(s1, DramHot, q, frames); } else { ListedPage(s1, NvmCold, q, frames); }
    }
  }

  lemma ColdFateHolds(s: State, s1: State, m: nat, back: bool, q: PageId, frames: set<Frame>)
    requires ListsMigrated(s, s1, m, back) && Inv(s1, frames) && s1.rings.free == []
    ensures ColdFate(s, s1, q)
  {
    var cold := s.fifos.L(DramCold);
    if q in cold && q !in s1.fifos.L(DramCold) {
      var e := Evictions(|s.fifos.L(DramFree)|, |Promotions(s, m)|);
      assert cold == cold[..|cold| - e] + Oldest(cold, e);
      hide Inv, Filter, Promotions;
      ListedPage(s1, NvmCold, q, frames);
    }
  }

  /** Where the loop stops. */
  ghost predicate Stops(s: State, s1: State, out: bool) {
    if out then s1.fifos.L(DramFree) == [] && s1.fifos.L(DramCold) == [] && s1.fifos.L(NvmHot) != []
    else || s1.fifos.L(NvmHot) == []
         || (|s1.fifos.L(DramHot)| - |s.fifos.L(DramHot)|) * HUGEPAGE_SIZE >= PEBS_KSWAPD_MIGRATE_RATE
  }

  ghost predicate LoopFates(s: State, e: MigrationEnd) {
    !e.Aborted? ==>
      && (forall q: PageId :: HotFate(s, e.state, q)) && (forall q: PageId :: ColdFate(s, e.state, q))
      && Stops(s, e.state, e.Out?)
  }

  lemma DoneLists(s: State, e: MigrationEnd, m: nat)
    requires LoopDone(s, 0, e, m) && !e.Aborted?
    ensures ListsMigrated(s, e.state, m, e.Out?) && Stops(s, e.state, e.Out?)
  {
    hide Promotions, FramesMigrated, SweepsMigrated, Popular, Joins;
  }

  /**
   A hot page of NVM that leaves its list is in DRAM if it has eight reads, else it is cold; a page is
   evicted only when the free DRAM frames did not do. The loop gives up only with no free frame and no
   cold page in DRAM, and else stops with nothing left to promote or its byte budget spent.
   */
  lemma MigrationFates(s: State, frames: set<Frame>)
    requires Inv(s, frames) && s.rings.free == []
    ensures LoopFates(s, MigrateLoop(s, 0))
  {
    var m := MigrateLoopDoes(s, 0, frames);
    MigrateLoopInv(s, 0, frames);
    hide Inv, MigrateLoop, LoopDone;
    FatesOf(s, MigrateLoop(s, 0), m, frames);
  }

  lemma FatesOf(s: State, e: MigrationEnd, m: nat, frames: set<Frame>)
    requires LoopDone(s, 0, e, m) && EndOk(s, e, frames) && s.rings.free == []
    ensures LoopFates(s, e)
  {
    if !e.Aborted? {
      DoneLists(s, e, m);
      hide Inv, LoopDone, ListsMigrated, HotFate, ColdFate, Stops;
      forall q: PageId ensures HotFate(s, e.state, q) && ColdFate(s, e.state, q) {
        HotFateHolds(s, e.state, m, e.Out?, q, frames);
        ColdFateHolds(s, e.state, m, e.Out?, q, frames);
      }
    }
  }
}
