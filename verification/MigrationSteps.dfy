/**
 The page manager and the migration protocol together: every promotion and every eviction of the
 policy thread is a migration the protocol can carry out, and it moves the mapping where the page
 structures say.
 */
module MigrationSteps {
  import opened Basics
  import opened PebsState
  import opened PebsSteps
  import opened PebsInvariant
  import opened PebsMigration
  import opened PebsManager
  import MP = MigrationProtocol

  ghost predicate ShownAt(s: State, m: MP.Machine, va: Address) {
    && (va in m.pte <==> va in s.index)
    && (va in s.index ==> s.index[va] in s.pages && va in m.pte && m.pte[va] == s.pages[s.index[va]].frame)
  }

  /** The mappings of machine m are those of the page manager's index. */
  ghost predicate Shows(s: State, m: MP.Machine) {
    && m.phase.Idle? && MP.Inv(m)
    && (forall va: Address :: ShownAt(s, m, va))
    && (forall p :: p in s.pages ==> s.pages[p].frame in m.mem)
  }

  /** The present page p moves into the frame of np, which holds nothing. */
  lemma SwapIsMigration(s: State, held: Option<PageId>, p: PageId, np: PageId, frames: set<Frame>, m: MP.Machine, s': State)
    requires InvHolding(s, held, frames) && Shows(s, m)
    requires p in s.pages && np in s.pages && p != np && s.pages[p].present && !s.pages[np].present
    requires s'.pages == SwapFrames(s.pages, p, np) && s'.index == s.index
    ensures var h := MP.Moving(s.pages[p].va, s.pages[np].frame, m.words);
            MP.Run(m, h).Some? && Shows(s', MP.Run(m, h).value)
  {
    var va, dst := s.pages[p].va, s.pages[np].frame;
    assert IndexedOk(s, p) && ShownAt(s, m, va);
    forall a | a in m.pte ensures m.pte[a] != dst {
      assert ShownAt(s, m, a) && MappingOk(s, a) && Apart(s.pages, s.index[a], np);
    }
    hide ListsOk, PagesOk, RingsOk, CursorsOk;
    assert MP.Enabled(m, MP.Begin(va, dst));
    MP.MovingRuns(m, va, dst);
    MP.MovingProtects(va, dst, m.words);
    MP.RunSound(m, MP.Moving(va, dst, m.words));
    hide MP.Run, MP.Inv;
    var m' := MP.Run(m, MP.Moving(va, dst, m.words)).value;
    forall a: Address ensures ShownAt(s', m', a) {
      assert ShownAt(s, m, a) && MappingOk(s, a) && IndexedOk(s, p);
    }
  }

  lemma PromoteIsMigration(s: State, p: PageId, frames: set<Frame>, m: MP.Machine)
    requires InvHolding(s, Some(p), frames) && p in s.pages && s.fifos.L(DramFree) != [] && Shows(s, m)
    ensures var h := MP.Moving(s.pages[p].va, At(s.pages, Last(s.fifos, DramFree)).frame, m.words);
            MP.Run(m, h).Some? && Shows(Promote(s, p), MP.Run(m, h).value)
  {
    PromotionPair(s, p, frames);
    assert PageOkAt(s, Some(p), p);
    hide InvHolding, Shows;
    SwapIsMigration(s, Some(p), p, Last(s.fifos, DramFree), frames, m, Promote(s, p));
  }

  lemma DemoteIsMigration(s: State, p: PageId, frames: set<Frame>, m: MP.Machine)
    requires InvHolding(s, Some(p), frames) && s.rings.free == [] && Shows(s, m)
    requires s.fifos.L(DramCold) != [] && s.fifos.L(NvmFree) != []
    ensures var h := MP.Moving(At(s.pages, Last(s.fifos, DramCold)).va, At(s.pages, Last(s.fifos, NvmFree)).frame, m.words);
            MP.Run(m, h).Some? && Shows(Demote(s), MP.Run(m, h).value)
  {
    var cp := Last(s.fifos, DramCold);
    DemotionPair(s, p, frames);
    DemoteLists(s);
    assert PageOkAt(s, Some(p), cp) && PageOkAt(s, Some(p), p);
    hide InvHolding, Shows, ListsOk;
    SwapIsMigration(s, Some(p), cp, Last(s.fifos, NvmFree), frames, m, Demote(s));
  }
}
