/**
 Cooling in place: the sweep's loop keeps the invariant, and one call of `partial_cool` is a filter
 on the stretch of the hot list beyond the cursor.
 */
module PebsCooling {
  import opened Basics
  import opened Bits
  import opened PebsState
  import opened PebsSteps
  import opened PebsInvariant
  import opened PebsPreservation
  import opened PebsMigration

  // ---- the invariant ----

  lemma NextPageInList(xs: seq<PageId>, cur: Option<PageId>)
    ensures NextPage(xs, cur).Some? ==> NextPage(xs, cur).value in xs
  {
  }

  lemma NextLinkFacts(xs: seq<PageId>, p: PageId)
    requires NoDup(xs) && p in xs
    ensures NextLink(xs, p).Some? ==> NextLink(xs, p).value in xs && NextLink(xs, p).value != p
  {
  }

  lemma CoolOneLists(s: State, dram: bool, p: PageId)
    requires ListsOk(s.fifos) && CursorsOk(s) && p in s.fifos.L(HotList(dram))
    ensures ListsOk(CoolOne(s, dram, p).fifos) && CursorsOk(CoolOne(s, dram, p))
    ensures p in s.fifos.home && s.fifos.home[p] == HotList(dram)
    ensures !StaysHot(At(s.pages, p), s.clock) ==>
              CoolOne(s, dram, p).fifos.home == s.fifos.home[p := ColdList(dram)]
  {
    hide NoDup, Relist, StaysHot, NextLink;
    assert ListOk(s.fifos, HotList(dram));
    RelistFacts(s.fifos, HotList(dram), ColdList(dram), p);
    NextLinkFacts(s.fifos.L(HotList(dram)), p);
    assert ListOk(s.fifos, HotList(!dram));
    hide ListsOk;
    if !StaysHot(At(s.pages, p), s.clock) {
      var other := s.SweepOf(!dram);
      assert other.cursor.Some? ==> other.cursor.value in s.fifos.L(HotList(!dram)) && other.cursor != Some(p);
    }
  }

  lemma CoolOneInv(s: State, dram: bool, p: PageId, frames: set<Frame>)
    requires Inv(s, frames) && p in s.fifos.L(HotList(dram))
    ensures Inv(CoolOne(s, dram, p), frames) && KeepsCounts(s, CoolOne(s, dram, p))
    ensures CoolOne(s, dram, p).rings == s.rings
  {
    hide NoDup, Relist, StaysHot, NextLink, ListsOk, IndexOk, FramesOk, RingsOk, CursorsOk;
    CoolOneLists(s, dram, p);
    var s' := CoolOne(s, dram, p);
    assert PageOkAt(s, None, p);
    hide PagesOk;
    RingsFrame(s, s', {p});
    StepInv(s, None, s', None, {p}, frames);
    forall q: PageId ensures CountsKept(s, s', q) { }
  }

  lemma CoolLoopInv(s: State, dram: bool, n: nat, frames: set<Frame>)
    requires Inv(s, frames)
    ensures Inv(CoolLoop(s, dram, n), frames) && KeepsCounts(s, CoolLoop(s, dram, n))
    ensures CoolLoop(s, dram, n).rings == s.rings
    decreases n
  {
    hide Inv, CoolOne;
    var next := NextPage(s.fifos.L(HotList(dram)), s.SweepOf(dram).cursor);
    if n > 0 && next.Some? {
      var p := next.value;
      NextPageInList(s.fifos.L(HotList(dram)), s.SweepOf(dram).cursor);
      CoolOneInv(s, dram, p, frames);
      CoolLoopInv(CoolOne(s, dram, p), dram, n - 1, frames);
      KeepsCountsTransitive(s, CoolOne(s, dram, p), CoolLoop(CoolOne(s, dram, p), dram, n - 1));
    } else {
      forall q: PageId ensures CountsKept(s, s, q) { }
    }
  }

  lemma BeginCoolInv(s: State, dram: bool, frames: set<Frame>)
    requires Inv(s, frames)
    ensures Inv(BeginCool(s, dram), frames)
  {
    hide NoDup, ListsOk, IndexOk, FramesOk, RingsOk, PagesOk;
    RingsFrame(s, BeginCool(s, dram), {});
    StepInv(s, None, BeginCool(s, dram), None, {}, frames);
  }

  lemma PartialCoolInv(s: State, dram: bool, frames: set<Frame>)
    requires Inv(s, frames)
    ensures Inv(PartialCool(s, dram), frames) && KeepsCounts(s, PartialCool(s, dram))
    ensures PartialCool(s, dram).rings == s.rings
  {
    var s1 := BeginCool(s, dram);
    BeginCoolInv(s, dram, frames);
    hide Inv, CoolLoop;
    forall q: PageId ensures CountsKept(s, s, q) && CountsKept(s, s1, q) { }
    CoolLoopInv(s1, dram, COOLING_PAGES, frames);
    KeepsCountsTransitive(s, s1, CoolLoop(s1, dram, COOLING_PAGES));
  }

  // ---- the sweep as a filter ----

  /** Where a cursor stands: everything before this position is still to be visited. */
  function Position(xs: seq<PageId>, cur: Option<PageId>): (k: nat)
    requires cur.Some? ==> cur.value in xs
    ensures k <= |xs|
  {
    if cur.Some? then IndexOf(xs, cur.value) else |xs|
  }

  function CursorAt(xs: seq<PageId>, k: nat): Option<PageId> {
    if k < |xs| then Some(xs[k]) else None
  }

  function Min(a: nat, b: nat): nat { if a <= b then a else b }

  function Stays(s: State): PageId -> bool { (p: PageId) => StaysHot(At(s.pages, p), s.clock) }
  function Leaves(s: State): PageId -> bool { (p: PageId) => !StaysHot(At(s.pages, p), s.clock) }

  /** The stretch of m pages that ends before position k. */
  function Stretch(hot: seq<PageId>, k: nat, m: nat): seq<PageId>
    requires m <= k <= |hot|
  {
    hot[k - m..k]
  }

  function HotAfter(hot: seq<PageId>, k: nat, m: nat, stays: PageId -> bool): seq<PageId>
    requires m <= k <= |hot|
  {
    hot[..k - m] + Filter(Stretch(hot, k, m), stays) + hot[k..]
  }

  function ColdAfter(hot: seq<PageId>, cold: seq<PageId>, k: nat, m: nat, leaves: PageId -> bool): seq<PageId>
    requires m <= k <= |hot|
  {
    Filter(Stretch(hot, k, m), leaves) + cold
  }

  /** The round ends when the page it started from is visited. */
  function SweepAfter(w: Sweep, seg: seq<PageId>, cursor: Option<PageId>): Sweep {
    var ends := w.start.Some? && w.start.value in seg;
    Sweep(cursor, if ends then None else w.start, w.need && !ends)
  }

  /** A page the sweep sends away loses its `hot` flag; no other record changes. */
  function Swept(s: State, seg: seq<PageId>, p: PageId): Page {
    if p in seg && Leaves(s)(p) then At(s.pages, p).(hot := false) else At(s.pages, p)
  }

  ghost predicate RecordsSwept(s: State, s': State, seg: seq<PageId>) {
    forall p: PageId :: At(s'.pages, p) == Swept(s, seg, p)
  }

  ghost predicate OtherwiseSame(s: State, s': State, dram: bool) {
    && (forall l: ListId :: l != HotList(dram) && l != ColdList(dram) ==> s'.fifos.L(l) == s.fifos.L(l))
    && s'.SweepOf(!dram) == s.SweepOf(!dram)
    && s'.rings == s.rings && s'.clock == s.clock && s'.index == s.index
  }

  /** s' is s with the m pages before position k of the hot list swept. */
  ghost predicate SweptTo(s: State, s': State, dram: bool, k: nat, m: nat)
    requires m <= k <= |s.fifos.L(HotList(dram))|
  {
    var hot, cold := s.fifos.L(HotList(dram)), s.fifos.L(ColdList(dram));
    && s'.fifos.L(HotList(dram)) == HotAfter(hot, k, m, Stays(s))
    && s'.fifos.L(ColdList(dram)) == ColdAfter(hot, cold, k, m, Leaves(s))
    && s'.SweepOf(dram) == SweepAfter(s.SweepOf(dram), Stretch(hot, k, m), CursorAt(s'.fifos.L(HotList(dram)), k - m))
    && RecordsSwept(s, s', Stretch(hot, k, m))
    && OtherwiseSame(s, s', dram)
  }

  lemma FilterSingle(p: PageId, keep: PageId -> bool)
    ensures Filter([p], keep) == if keep(p) then [p] else []
  {
  }

  lemma FilterExt(xs: seq<PageId>, f: PageId -> bool, g: PageId -> bool)
    requires forall x :: x in xs ==> f(x) == g(x)
    ensures Filter(xs, f) == Filter(xs, g)
  {
    if xs != [] { FilterExt(xs[1..], f, g); }
  }

  lemma StretchOfOne(hot: seq<PageId>, cold: seq<PageId>, k: nat, f: PageId -> bool, g: PageId -> bool)
    requires 0 < k <= |hot|
    ensures Stretch(hot, k, 1) == [hot[k - 1]]
    ensures HotAfter(hot, k, 1, f) == if f(hot[k - 1]) then hot else hot[..k - 1] + hot[k..]
    ensures ColdAfter(hot, cold, k, 1, g) == if g(hot[k - 1]) then [hot[k - 1]] + cold else cold
  {
    FilterSingle(hot[k - 1], f);
    FilterSingle(hot[k - 1], g);
    assert hot[k - 1..k] == [hot[k - 1]];
    assert hot[..k - 1] + [hot[k - 1]] + hot[k..] == hot;
    assert [] + cold == cold;
  }

  lemma CoolOneSweep(s: State, dram: bool, k: nat)
    requires ListsOk(s.fifos) && 0 < k <= |s.fifos.L(HotList(dram))|
    ensures var hot := s.fifos.L(HotList(dram)); var p := hot[k - 1];
            && NextLink(hot, p) == (if k == |hot| then None else Some(hot[k]))
            && Without(hot, p) == hot[..k - 1] + hot[k..]
  {
    var hot := s.fifos.L(HotList(dram));
    assert ListOk(s.fifos, HotList(dram));
    WithoutAt(hot, k - 1);
    NoDupIndex(hot, k - 1);
  }

  /** One iteration sweeps a stretch of length one. */
  lemma CoolOneSweeps(s: State, dram: bool, k: nat)
    requires ListsOk(s.fifos) && 0 < k <= |s.fifos.L(HotList(dram))|
    ensures SweptTo(s, CoolOne(s, dram, s.fifos.L(HotList(dram))[k - 1]), dram, k, 1)
  {
    var hot, cold := s.fifos.L(HotList(dram)), s.fifos.L(ColdList(dram));
    hide StaysHot, ListsOk, Without, NextLink, Filter, IndexOf, HotAfter, ColdAfter, Stretch;
    CoolOneSweep(s, dram, k);
    StretchOfOne(hot, cold, k, Stays(s), Leaves(s));
  }

  lemma SweptNothing(s: State, dram: bool, k: nat)
    requires k <= |s.fifos.L(HotList(dram))|
    requires s.SweepOf(dram).cursor == CursorAt(s.fifos.L(HotList(dram)), k)
    ensures SweptTo(s, s, dram, k, 0)
  {
    var hot, cold := s.fifos.L(HotList(dram)), s.fifos.L(ColdList(dram));
    assert hot[k..k] == [];
    assert hot[..k] + [] + hot[k..] == hot;
    assert [] + cold == cold;
  }

  lemma HotCompose(hot: seq<PageId>, k: nat, m: nat, f: PageId -> bool, g: PageId -> bool)
    requires 0 < m <= k <= |hot| && NoDup(hot)
    requires forall q :: q in Stretch(hot, k - 1, m - 1) ==> f(q) == g(q)
    ensures k - 1 <= |HotAfter(hot, k, 1, f)|
    ensures Stretch(HotAfter(hot, k, 1, f), k - 1, m - 1) == Stretch(hot, k - 1, m - 1)
    ensures HotAfter(HotAfter(hot, k, 1, f), k - 1, m - 1, g) == HotAfter(hot, k, m, f)
  {
    hide Filter, NoDup;
    var p, seg1 := hot[k - 1], Stretch(hot, k - 1, m - 1);
    StretchOfOne(hot, [], k, f, f);
    var hot1 := HotAfter(hot, k, 1, f);
    StretchFilter(hot, k, m, f);
    FilterExt(seg1, f, g);
    var kept := if f(p) then [p] else [];
    assert hot1 == hot[..k - m] + seg1 + (kept + hot[k..]);
    assert Stretch(hot1, k - 1, m - 1) == seg1 && hot1[..k - m] == hot[..k - m] && hot1[k - 1..] == kept + hot[k..];
    Regroup(hot[..k - m], Filter(seg1, f), kept, hot[k..]);
  }

  lemma Regroup(a: seq<PageId>, b: seq<PageId>, c: seq<PageId>, d: seq<PageId>)
    ensures a + b + (c + d) == a + (b + c) + d
  {
  }

  lemma StretchFilter(hot: seq<PageId>, k: nat, m: nat, f: PageId -> bool)
    requires 0 < m <= k <= |hot|
    ensures Filter(Stretch(hot, k, m), f) == Filter(Stretch(hot, k - 1, m - 1), f) + if f(hot[k - 1]) then [hot[k - 1]] else []
  {
    assert Stretch(hot, k, m) == Stretch(hot, k - 1, m - 1) + [hot[k - 1]];
    FilterConcat(Stretch(hot, k - 1, m - 1), [hot[k - 1]], f);
    FilterSingle(hot[k - 1], f);
  }

  lemma ColdCompose(hot: seq<PageId>, hot1: seq<PageId>, cold: seq<PageId>, k: nat, m: nat, f: PageId -> bool, g: PageId -> bool)
    requires 0 < m <= k <= |hot| && k - 1 <= |hot1| && Stretch(hot1, k - 1, m - 1) == Stretch(hot, k - 1, m - 1)
    requires forall q :: q in Stretch(hot, k - 1, m - 1) ==> f(q) == g(q)
    ensures ColdAfter(hot1, ColdAfter(hot, cold, k, 1, f), k - 1, m - 1, g) == ColdAfter(hot, cold, k, m, f)
  {
    hide Filter, Stretch;
    StretchOfOne(hot, cold, k, f, f);
    StretchFilter(hot, k, m, f);
    FilterExt(Stretch(hot, k - 1, m - 1), f, g);
  }

  lemma StretchParts(hot: seq<PageId>, k: nat, m: nat)
    requires 0 < m <= k <= |hot| && NoDup(hot)
    ensures hot[k - 1] !in Stretch(hot, k - 1, m - 1) && Stretch(hot, k, 1) == [hot[k - 1]]
    ensures Stretch(hot, k, m) == Stretch(hot, k - 1, m - 1) + [hot[k - 1]]
    ensures forall q :: q in Stretch(hot, k, m) <==> q in Stretch(hot, k - 1, m - 1) || q == hot[k - 1]
  {
    assert Stretch(hot, k, m) == Stretch(hot, k - 1, m - 1) + [hot[k - 1]];
    assert Stretch(hot, k, 1) == [hot[k - 1]];
  }

  /** Stretches swept one after the other add up. */
  lemma SweepsCompose(s: State, s1: State, s2: State, dram: bool, k: nat, m: nat)
    requires 0 < m <= k <= |s.fifos.L(HotList(dram))| && NoDup(s.fifos.L(HotList(dram)))
    requires SweptTo(s, s1, dram, k, 1) && k - 1 <= |s1.fifos.L(HotList(dram))|
    requires SweptTo(s1, s2, dram, k - 1, m - 1)
    ensures SweptTo(s, s2, dram, k, m)
  {
    hide StaysHot, HotAfter, ColdAfter, Stretch, NoDup, CursorAt;
    var hot, cold := s.fifos.L(HotList(dram)), s.fifos.L(ColdList(dram));
    var hot1, p, seg1 := s1.fifos.L(HotList(dram)), hot[k - 1], Stretch(hot, k - 1, m - 1);
    StretchParts(hot, k, m);
    assert forall q :: q in seg1 ==> At(s1.pages, q) == At(s.pages, q);
    HotCompose(hot, k, m, Stays(s), Stays(s1));
    ColdCompose(hot, hot1, cold, k, m, Leaves(s), Leaves(s1));
    SweptRecords(s, s1, s2, p, seg1, Stretch(hot, k, m));
  }

  lemma SweptRecords(s: State, s1: State, s2: State, p: PageId, seg1: seq<PageId>, seg: seq<PageId>)
    requires seg == seg1 + [p] && p !in seg1 && s1.clock == s.clock
    requires RecordsSwept(s, s1, [p]) && RecordsSwept(s1, s2, seg1)
    ensures RecordsSwept(s, s2, seg)
  {
    forall q: PageId ensures At(s2.pages, q) == Swept(s, seg, q) {
      assert At(s1.pages, q) == Swept(s, [p], q);
    }
  }

  /** The loop of `partial_cool`: the next min(n, remaining) pages beyond the cursor, each once, filtered in place. */
  lemma CoolLoopSweeps(s: State, dram: bool, n: nat, frames: set<Frame>)
    requires Inv(s, frames)
    ensures s.SweepOf(dram).cursor.Some? ==> s.SweepOf(dram).cursor.value in s.fifos.L(HotList(dram))
    ensures var k := Position(s.fifos.L(HotList(dram)), s.SweepOf(dram).cursor);
            SweptTo(s, CoolLoop(s, dram, n), dram, k, Min(n, k))
    decreases n
  {
    hide NoDup, InvHolding, CoolOne, SweptTo;
    var hot := s.fifos.L(HotList(dram));
    HotListFacts(s, dram, frames);
    var k := Position(hot, s.SweepOf(dram).cursor);
    if n == 0 || k == 0 {
      SweptNothing(s, dram, k);
    } else {
      var p := hot[k - 1];
      assert NextPage(hot, s.SweepOf(dram).cursor) == Some(p);
      var s1 := CoolOne(s, dram, p);
      CoolOneSweeps(s, dram, k);
      CoolOneInv(s, dram, p, frames);
      SweptCursor(s, s1, dram, k, frames);
      CoolLoopSweeps(s1, dram, n - 1, frames);
      SweepsCompose(s, s1, CoolLoop(s1, dram, n - 1), dram, k, Min(n, k));
    }
  }

  lemma HotListFacts(s: State, dram: bool, frames: set<Frame>)
    requires Inv(s, frames)
    ensures ListsOk(s.fifos) && NoDup(s.fifos.L(HotList(dram)))
    ensures s.SweepOf(dram).cursor.Some? ==> s.SweepOf(dram).cursor.value in s.fifos.L(HotList(dram))
    ensures var k := Position(s.fifos.L(HotList(dram)), s.SweepOf(dram).cursor);
            s.SweepOf(dram).cursor == CursorAt(s.fifos.L(HotList(dram)), k)
  {
    assert ListOk(s.fifos, HotList(dram));
  }

  lemma SweptCursor(s: State, s1: State, dram: bool, k: nat, frames: set<Frame>)
    requires 0 < k <= |s.fifos.L(HotList(dram))| && SweptTo(s, s1, dram, k, 1) && Inv(s1, frames)
    ensures k - 1 <= |s1.fifos.L(HotList(dram))|
    ensures s1.SweepOf(dram).cursor.Some? ==> s1.SweepOf(dram).cursor.value in s1.fifos.L(HotList(dram))
    ensures Position(s1.fifos.L(HotList(dram)), s1.SweepOf(dram).cursor) == k - 1
  {
    hide ListsOk, InvHolding;
    var hot := s1.fifos.L(HotList(dram));
    HotListFacts(s1, dram, frames);
    if k - 1 < |hot| { NoDupIndex(hot, k - 1); }
  }

  // ---- one call of partial_cool ----

  /** Where a round starts that has not begun: at the last page of the hot list. */
  function RoundStart(w: Sweep, hot: seq<PageId>): Option<PageId> {
    if w.start == None && hot != [] then Some(hot[|hot| - 1]) else w.start
  }

  /** The state in which the sweep goes on: only the page the round starts from may have been set. */
  function RoundBegun(s: State, dram: bool): State {
    if dram then s.(dramSweep := s.dramSweep.(start := RoundStart(s.dramSweep, s.fifos.L(DramHot))))
    else s.(nvmSweep := s.nvmSweep.(start := RoundStart(s.nvmSweep, s.fifos.L(NvmHot))))
  }

  /** s' is s with at most 8192 more pages of the tier's hot list swept, if cooling was asked for; else it is s. */
  ghost predicate SweptOnce(s: State, s': State, dram: bool) {
    var hot, w := s.fifos.L(HotList(dram)), s.SweepOf(dram);
    && (!w.need ==> s' == s)
    && (w.need ==>
          && (w.cursor.Some? ==> w.cursor.value in hot)
          && SweptTo(RoundBegun(s, dram), s', dram, Position(hot, w.cursor), Min(8192, Position(hot, w.cursor))))
  }

  /** `partial_cool` cools exactly when it is asked to, from where the last call stopped. */
  lemma PartialCoolSweeps(s: State, dram: bool, frames: set<Frame>)
    requires Inv(s, frames)
    ensures SweptOnce(s, PartialCool(s, dram), dram)
  {
    hide NoDup, InvHolding, CoolOne, CoolLoop, SweptTo;
    if s.SweepOf(dram).need {
      var s0 := BeginCool(s, dram);
      BeginCoolInv(s, dram, frames);
      HotListFacts(s, dram, frames);
      assert s0 == RoundBegun(s, dram);
      CoolLoopSweeps(s0, dram, COOLING_PAGES, frames);
    }
  }

  /** Page q was looked at: it is cold now if fewer than eight reads are left, else still hot. */
  ghost predicate SweptFate(s: State, s': State, dram: bool, q: PageId) {
    q in s.pages && q in s'.pages && s.pages[q].localClock <= s.clock ==>
      var ticks := Pow2(s.clock - s.pages[q].localClock);
      if s.pages[q].hot && s.pages[q].dramReads / ticks + s.pages[q].nvmReads / ticks >= 8
      then q in s'.fifos.L(HotList(dram)) && s'.pages[q].hot
      else q in s'.fifos.L(ColdList(dram)) && !s'.pages[q].hot
  }

  lemma SweptFates(s: State, s': State, dram: bool, q: PageId)
    requires s.SweepOf(dram).need && SweptOnce(s, s', dram)
    ensures var hot := s.fifos.L(HotList(dram)); var k := Position(hot, s.SweepOf(dram).cursor);
            q in hot[k - Min(8192, k)..k] ==> SweptFate(s, s', dram, q)
  {
    var hot, s0 := s.fifos.L(HotList(dram)), RoundBegun(s, dram);
    var k := Position(hot, s.SweepOf(dram).cursor);
    if q in Stretch(hot, k, Min(8192, k)) {
      assert s0.pages == s.pages && s0.clock == s.clock && s0.fifos == s.fifos;
      SweptPage(s0, s', dram, k, Min(8192, k), q);
      if q in s.pages && s.pages[q].localClock <= s.clock { StaysInNumbers(s.pages[q], s.clock); }
      hide SweptOnce, SweptTo, Pow2, Fifos.L, StaysHot;
    }
  }

  lemma StaysInNumbers(pg: Page, now: nat)
    requires pg.localClock <= now
    ensures var ticks := Pow2(now - pg.localClock);
            StaysHot(pg, now) <==> pg.hot && pg.dramReads / ticks + pg.nvmReads / ticks >= 8
  {
    ShrIsDivision(pg.dramReads, now - pg.localClock);
    ShrIsDivision(pg.nvmReads, now - pg.localClock);
    hide Pow2, Shr;
  }

  lemma SweptPage(s: State, s': State, dram: bool, k: nat, m: nat, q: PageId)
    requires m <= k <= |s.fifos.L(HotList(dram))| && SweptTo(s, s', dram, k, m) && q in Stretch(s.fifos.L(HotList(dram)), k, m)
    ensures if StaysHot(At(s.pages, q), s.clock) then q in s'.fifos.L(HotList(dram)) && At(s'.pages, q) == At(s.pages, q)
            else q in s'.fifos.L(ColdList(dram)) && At(s'.pages, q) == At(s.pages, q).(hot := false)
  {
    assert At(s'.pages, q) == Swept(s, Stretch(s.fifos.L(HotList(dram)), k, m), q);
    hide StaysHot, Stretch;
  }

  /** A round over a hot list of at most 8192 pages is over in one call: every page was looked at and no more cooling is asked for. */
  lemma RoundInOneCall(s: State, dram: bool, frames: set<Frame>)
    requires Inv(s, frames) && s.SweepOf(dram).need && s.SweepOf(dram).cursor == None
    requires var hot, w := s.fifos.L(HotList(dram)), s.SweepOf(dram);
             0 < |hot| <= 8192 && (w.start.Some? ==> w.start.value in hot)
    ensures var s', hot := PartialCool(s, dram), s.fifos.L(HotList(dram));
            && !s'.SweepOf(dram).need && s'.SweepOf(dram).start == None
            && forall q :: q in hot ==> SweptFate(s, s', dram, q)
  {
    hide InvHolding, CoolOne, CoolLoop, PartialCool, SweptFate;
    PartialCoolSweeps(s, dram, frames);
    var s', hot := PartialCool(s, dram), s.fifos.L(HotList(dram));
    assert Stretch(hot, |hot|, |hot|) == hot && hot[|hot| - |hot|..|hot|] == hot;
    forall q | q in hot ensures SweptFate(s, s', dram, q) { SweptFates(s, s', dram, q); }
  }
}
