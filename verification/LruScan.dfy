/**
 The LRU policy's scan: each tier keeps an active, an inactive and a written list, and one scan runs
 three passes over each tier, moving pages by their access bits and recording the addresses whose
 bits are to be cleared. Lists are given oldest entry first: the next to be dequeued.
 */
module LruScan {
  import opened Basics

  const MAX_VAS: nat := 1000000

  /** A page's bits, as one read returns them. */
  datatype Access = Access(accessed: bool, dirty: bool)

  type Reads = PageId -> Access
  type Test = PageId -> bool

  datatype Lists = Lists(active: seq<PageId>, inactive: seq<PageId>, written: seq<PageId>)

  // ---- where a page goes ----

  function Written(bits: Reads): Test { (p: PageId) => bits(p).accessed && bits(p).dirty }
  function ReadOnly(bits: Reads): Test { (p: PageId) => bits(p).accessed && !bits(p).dirty }
  function Cold(bits: Reads): Test { (p: PageId) => !bits(p).accessed }
  function Accessed(bits: Reads): Test { (p: PageId) => bits(p).accessed }

  type Counts = map<PageId, nat>

  function Count(naccesses: Counts, p: PageId): nat { if p in naccesses then naccesses[p] else 0 }

  /** Read often enough while inactive to become active. */
  function Promoted(bits: Reads, naccesses: Counts): Test { (p: PageId) => ReadOnly(bits)(p) && Count(naccesses, p) >= 4 }
  function Noted(bits: Reads, naccesses: Counts): Test { (p: PageId) => ReadOnly(bits)(p) && Count(naccesses, p) < 4 }
  function StaysInactive(bits: Reads, naccesses: Counts): Test { (p: PageId) => Cold(bits)(p) || Noted(bits, naccesses)(p) }

  lemma TestsAt(bits: Reads, naccesses: Counts, p: PageId)
    ensures Written(bits)(p) == (bits(p).accessed && bits(p).dirty) && ReadOnly(bits)(p) == (bits(p).accessed && !bits(p).dirty)
    ensures Cold(bits)(p) == !bits(p).accessed && Accessed(bits)(p) == bits(p).accessed
    ensures Promoted(bits, naccesses)(p) == (ReadOnly(bits)(p) && Count(naccesses, p) >= 4)
    ensures Noted(bits, naccesses)(p) == (ReadOnly(bits)(p) && Count(naccesses, p) < 4)
    ensures StaysInactive(bits, naccesses)(p) == (Cold(bits)(p) || Noted(bits, naccesses)(p))
  {
  }

  /** check_writes: the written list is split three ways. */
  function Checked(l: Lists, bits: Reads): Lists {
    Lists(l.active + Filter(l.written, ReadOnly(bits)), l.inactive + Filter(l.written, Cold(bits)), Filter(l.written, Written(bits)))
  }

  /** shrink_caches: the active list is split three ways. */
  function Shrunk(l: Lists, bits: Reads): Lists {
    Lists(Filter(l.active, ReadOnly(bits)), l.inactive + Filter(l.active, Cold(bits)), l.written + Filter(l.active, Written(bits)))
  }

  /** expand_caches: the inactive list is split three ways. */
  function Expanded(l: Lists, bits: Reads, naccesses: Counts): Lists {
    Lists(l.active + Filter(l.inactive, Promoted(bits, naccesses)), Filter(l.inactive, StaysInactive(bits, naccesses)),
          l.written + Filter(l.inactive, Written(bits)))
  }

  // ---- one pass over one list ----

  /** The list a pass goes over, and the two lists it moves pages to. */
  datatype Pass = Pass(source: seq<PageId>, first: seq<PageId>, second: seq<PageId>)

  /** Where a pass sends its pages: back, to the first, or to the second of the other lists. */
  datatype Split = Split(keep: Test, first: Test, second: Test)

  /** Every page is sent to exactly one list. */
  ghost predicate Exact(w: Split) {
    forall p: PageId :: ExactAt(w, p)
  }

  ghost predicate ExactAt(w: Split, p: PageId) {
    (w.keep(p) || w.first(p) || w.second(p)) && !(w.keep(p) && w.first(p)) && !(w.keep(p) && w.second(p)) && !(w.first(p) && w.second(p))
  }

  /** The lists when i pages have been looked at. */
  function PassTo(l: Pass, w: Split, i: nat): Pass
    requires i <= |l.source|
  {
    Pass(l.source[i..] + Filter(l.source[..i], w.keep), l.first + Filter(l.source[..i], w.first), l.second + Filter(l.source[..i], w.second))
  }

  /** The page at the front of the source goes to the end of the list it is sent to. */
  function Move(l: Pass, w: Split): Pass
    requires l.source != []
  {
    var p, rest := l.source[0], l.source[1..];
    Pass(if w.keep(p) then rest + [p] else rest, if w.first(p) then l.first + [p] else l.first, if w.second(p) then l.second + [p] else l.second)
  }

  lemma FilterStep(s: seq<PageId>, i: nat, keep: Test)
    requires i < |s|
    ensures Filter(s[..i + 1], keep) == Filter(s[..i], keep) + if keep(s[i]) then [s[i]] else []
  {
    assert s[..i + 1] == s[..i] + [s[i]];
    FilterConcat(s[..i], [s[i]], keep);
    assert [s[i]][1..] == [];
  }

  lemma PassStart(l: Pass, w: Split, other: Test)
    ensures PassTo(l, w, 0) == l && Filter(l.source[..0], other) == []
  {
    assert l.source[..0] == [] && l.source[0..] == l.source;
  }

  lemma PassEnd(l: Pass, w: Split)
    ensures PassTo(l, w, |l.source|) == Pass(Filter(l.source, w.keep), l.first + Filter(l.source, w.first), l.second + Filter(l.source, w.second))
    ensures l.source[..|l.source|] == l.source
  {
    assert l.source[..|l.source|] == l.source;
  }

  /** The i-th page looked at is the i-th page of the list as it was. */
  lemma PassTurn(l: Pass, w: Split, i: nat, other: Test)
    requires i < |l.source|
    ensures var now := PassTo(l, w, i);
            now.source != [] && now.source[0] == l.source[i] && PassTo(l, w, i + 1) == Move(now, w)
    ensures Filter(l.source[..i + 1], other) == Filter(l.source[..i], other) + if other(l.source[i]) then [l.source[i]] else []
  {
    hide Filter;
    var s, p := l.source, l.source[i];
    FilterStep(s, i, w.keep);
    FilterStep(s, i, w.first);
    FilterStep(s, i, w.second);
    FilterStep(s, i, other);
    Appended(s, i, Filter(s[..i], w.keep));
    assert PassTo(l, w, i + 1).source == Move(PassTo(l, w, i), w).source;
    assert PassTo(l, w, i + 1).first == Move(PassTo(l, w, i), w).first;
    assert PassTo(l, w, i + 1).second == Move(PassTo(l, w, i), w).second;
  }

  lemma Appended(s: seq<PageId>, i: nat, kept: seq<PageId>)
    requires i < |s|
    ensures s[i..] + kept == [s[i]] + (s[i + 1..] + kept) && (s[i..] + kept)[1..] == s[i + 1..] + kept
  {
  }

  // ---- no page is lost ----

  lemma {:induction false} SplitCounts(s: seq<PageId>, w: Split)
    requires Exact(w)
    ensures multiset(Filter(s, w.keep)) + multiset(Filter(s, w.first)) + multiset(Filter(s, w.second)) == multiset(s)
  {
    if s != [] {
      SplitCounts(s[1..], w);
      assert s == [s[0]] + s[1..];
      FilterHead(s, w.keep);
      FilterHead(s, w.first);
      FilterHead(s, w.second);
      hide Filter;
      assert ExactAt(w, s[0]);
    }
  }

  lemma FilterHead(s: seq<PageId>, keep: Test)
    requires s != []
    ensures multiset(Filter(s, keep)) == (if keep(s[0]) then multiset{s[0]} else multiset{}) + multiset(Filter(s[1..], keep))
  {
  }

  lemma FilterCounts(s: seq<PageId>, a: Test)
    ensures multiset(Filter(s, a)) <= multiset(s)
  {
    if s != [] {
      FilterCounts(s[1..], a);
      assert s == [s[0]] + s[1..];
    }
  }

  function CheckSplit(bits: Reads): Split { Split(Written(bits), ReadOnly(bits), Cold(bits)) }
  function ShrinkSplit(bits: Reads): Split { Split(ReadOnly(bits), Cold(bits), Written(bits)) }
  function ExpandSplit(bits: Reads, naccesses: Counts): Split {
    Split(StaysInactive(bits, naccesses), Promoted(bits, naccesses), Written(bits))
  }

  lemma SplitsExact(bits: Reads, naccesses: Counts)
    ensures Exact(CheckSplit(bits)) && Exact(ShrinkSplit(bits)) && Exact(ExpandSplit(bits, naccesses))
  {
    forall p: PageId ensures ExactAt(CheckSplit(bits), p) && ExactAt(ShrinkSplit(bits), p) && ExactAt(ExpandSplit(bits, naccesses), p) { }
  }

  /** The pages of a tier, with multiplicity. */
  function Pages(l: Lists): multiset<PageId> {
    multiset(l.active) + multiset(l.inactive) + multiset(l.written)
  }

  /** The pages recorded by the first pass and those still to be looked at make up the tier. */
  lemma CheckedKeeps(l: Lists, bits: Reads)
    ensures Pages(Checked(l, bits)) == Pages(l)
    ensures multiset(Filter(l.written, Written(bits))) + multiset(Checked(l, bits).active) + multiset(Checked(l, bits).inactive) == Pages(l)
  {
    SplitsExact(bits, map[]);
    SplitCounts(l.written, CheckSplit(bits));
    hide Filter, Written, ReadOnly, Cold;
  }

  /** The second pass records what is accessed and leaves the rest for the third. */
  lemma ShrunkKeeps(l: Lists, bits: Reads)
    ensures Pages(Shrunk(l, bits)) == Pages(l)
    ensures multiset(Filter(l.active, Accessed(bits))) + multiset(Shrunk(l, bits).inactive) == multiset(l.active) + multiset(l.inactive)
  {
    SplitsExact(bits, map[]);
    SplitCounts(l.active, ShrinkSplit(bits));
    AccessedOrCold(l.active, bits);
    hide Filter, Written, ReadOnly, Cold, Accessed;
  }

  lemma {:induction false} AccessedOrCold(s: seq<PageId>, bits: Reads)
    ensures multiset(Filter(s, Accessed(bits))) + multiset(Filter(s, Cold(bits))) == multiset(s)
  {
    if s != [] {
      AccessedOrCold(s[1..], bits);
      assert s == [s[0]] + s[1..];
      FilterHead(s, Accessed(bits));
      FilterHead(s, Cold(bits));
      hide Filter;
    }
  }

  lemma ExpandedKeeps(l: Lists, bits: Reads, naccesses: Counts)
    ensures Pages(Expanded(l, bits, naccesses)) == Pages(l)
    ensures multiset(Filter(l.inactive, Noted(bits, naccesses))) <= multiset(l.inactive)
  {
    SplitsExact(bits, naccesses);
    SplitCounts(l.inactive, ExpandSplit(bits, naccesses));
    FilterCounts(l.inactive, Noted(bits, naccesses));
    hide Filter, Written, Promoted, StaysInactive, Noted;
  }

  // ---- counts and flags ----

  /** A page found cold starts counting afresh. */
  function ShrunkCount(bits: Reads, naccesses: Counts): PageId -> int {
    (p: PageId) => if Cold(bits)(p) then 0 else Count(naccesses, p)
  }

  /** A read is counted, unless it is the one that makes the page active. */
  function ExpandedCount(bits: Reads, naccesses: Counts): PageId -> int {
    (p: PageId) => if Cold(bits)(p) || Promoted(bits, naccesses)(p) then 0
                   else if Noted(bits, naccesses)(p) then Count(naccesses, p) + 1 else Count(naccesses, p)
  }

  /** Access counts after a pass that visited the given pages. */
  ghost predicate Recount(was: Counts, now: Counts, visited: seq<PageId>, value: PageId -> int) {
    forall p: PageId :: Count(now, p) == if p in visited then value(p) else Count(was, p)
  }

  lemma RecountStart(nacc: Counts, s: seq<PageId>, value: PageId -> int)
    ensures Recount(nacc, nacc, s[..0], value)
  {
  }

  lemma RecountAt(was: Counts, now: Counts, s: seq<PageId>, i: nat, value: PageId -> int)
    requires i < |s| && Recount(was, now, s[..i], value)
    ensures Count(now, s[i]) == if s[i] in s[..i] then value(s[i]) else Count(was, s[i])
  {
  }

  lemma RecountStep(was: Counts, now: Counts, next: Counts, s: seq<PageId>, i: nat, value: PageId -> int)
    requires i < |s| && Recount(was, now, s[..i], value)
    requires Count(next, s[i]) == value(s[i]) && forall p: PageId :: p != s[i] ==> Count(next, p) == Count(now, p)
    ensures Recount(was, next, s[..i + 1], value)
  {
    assert s[..i + 1] == s[..i] + [s[i]];
  }

  type Marks = map<PageId, bool>

  /** An access sets or clears the page's written flag; a cold page keeps it. */
  function MarkOne(marked: Marks, bits: Reads, p: PageId): Marks {
    if bits(p).accessed then marked[p := bits(p).dirty] else marked
  }

  ghost predicate MarkedAt(was: Marks, now: Marks, visited: seq<PageId>, bits: Reads, p: PageId) {
    if p in visited && bits(p).accessed then p in now && now[p] == bits(p).dirty
    else (p in now <==> p in was) && (p in was ==> now[p] == was[p])
  }

  ghost predicate Remarked(was: Marks, now: Marks, visited: seq<PageId>, bits: Reads) {
    forall p: PageId :: MarkedAt(was, now, visited, bits, p)
  }

  lemma MarkStart(marked: Marks, s: seq<PageId>, bits: Reads)
    ensures Remarked(marked, marked, s[..0], bits)
  {
  }

  lemma MarkStep(was: Marks, now: Marks, next: Marks, s: seq<PageId>, i: nat, bits: Reads)
    requires i < |s| && Remarked(was, now, s[..i], bits) && next == MarkOne(now, bits, s[i])
    ensures Remarked(was, next, s[..i + 1], bits)
  {
    assert s[..i + 1] == s[..i] + [s[i]];
    forall p: PageId ensures MarkedAt(was, next, s[..i] + [s[i]], bits, p) { assert MarkedAt(was, now, s[..i], bits, p); }
  }

  // ---- the passes as the code runs them ----

  /** The three lists of one tier. */
  class Tier {
    var active: seq<PageId>
    var inactive: seq<PageId>
    var written: seq<PageId>

    function L(): Lists
      reads this
    {
      Lists(active, inactive, written)
    }

    function ForCheck(): Pass
      reads this
    {
      Pass(written, active, inactive)
    }

    function ForShrink(): Pass
      reads this
    {
      Pass(active, inactive, written)
    }

    function ForExpand(): Pass
      reads this
    {
      Pass(inactive, active, written)
    }
  }

  function Vas(va: PageId -> Address, pages: seq<PageId>): seq<Address> {
    seq(|pages|, i requires 0 <= i < |pages| => va(pages[i]))
  }

  class Scanner {
    const va: PageId -> Address
    const vas: array<Address>
    var vanum: nat
    var naccesses: Counts
    var marked: Marks

    /** The pages whose addresses are in vas. */
    ghost var recorded: seq<PageId>

    ghost predicate Valid()
      reads this, vas
    {
      vas.Length == MAX_VAS && vanum <= MAX_VAS && vas[..vanum] == Vas(va, recorded)
    }

    constructor (va: PageId -> Address)
      ensures Valid() && fresh(vas) && vanum == 0 && recorded == [] && this.va == va
    {
      this.va := va;
      vas := new Address[MAX_VAS];
      vanum, naccesses, marked, recorded := 0, map[], map[], [];
    }

    /** The address of a page is recorded; the source asserts that there is room. */
    method Record(p: PageId)
      requires Valid() && vanum < MAX_VAS
      modifies this`vanum, this`recorded, vas
      ensures Valid() && recorded == old(recorded) + [p] && vanum == old(vanum) + 1
    {
      vas[vanum] := va(p);
      vanum := vanum + 1;
      recorded := recorded + [p];
      assert vas[..vanum] == old(vas[..vanum]) + [va(p)];
    }

    /** One turn of the loop of check_writes. */
    method CheckPage(t: Tier, bits: Reads)
      requires Valid() && vanum < MAX_VAS && t.written != []
      modifies t, this`vanum, this`recorded, this`marked, vas
      ensures Valid() && t.ForCheck() == Move(old(t.ForCheck()), CheckSplit(bits)) && vanum <= old(vanum) + 1
      ensures recorded == old(recorded) + if Written(bits)(old(t.written)[0]) then [old(t.written)[0]] else []
      ensures marked == MarkOne(old(marked), bits, old(t.written)[0])
    {
      hide Written, ReadOnly, Cold, Accessed, Promoted, Noted, StaysInactive;
      var p := t.written[0];
      TestsAt(bits, naccesses, p);
      t.written := t.written[1..];
      var b := bits(p);
      if b.accessed {
        if b.dirty {
          marked := marked[p := true];
          Record(p);
          t.written := t.written + [p];
        } else {
          marked := marked[p := false];
          t.active := t.active + [p];
        }
      } else {
        t.inactive := t.inactive + [p];
      }
    }

    method CheckWrites(t: Tier, bits: Reads)
      requires Valid() && vanum + |t.written| <= MAX_VAS
      modifies t, this`vanum, this`recorded, this`marked, vas
      ensures Valid() && t.L() == Checked(old(t.L()), bits)
      ensures recorded == old(recorded) + Filter(old(t.written), Written(bits))
      ensures Remarked(old(marked), marked, old(t.written), bits)
    {
      hide Filter, Remarked;
      ghost var l, rec0, mark0, w := t.ForCheck(), recorded, marked, CheckSplit(bits);
      PassStart(l, w, Written(bits));
      MarkStart(marked, l.source, bits);
      var n := |t.written|;
      for i := 0 to n
        invariant Valid() && vanum <= old(vanum) + i && t.ForCheck() == PassTo(l, w, i)
        invariant recorded == rec0 + Filter(l.source[..i], Written(bits)) && Remarked(mark0, marked, l.source[..i], bits)
      {
        PassTurn(l, w, i, Written(bits));
        ghost var mark := marked;
        CheckPage(t, bits);
        MarkStep(mark0, mark, marked, l.source, i, bits);
      }
      PassEnd(l, w);
    }

    /** One turn of the loop of shrink_caches. */
    method ShrinkPage(t: Tier, bits: Reads)
      requires Valid() && vanum < MAX_VAS && t.active != []
      modifies t, this`vanum, this`recorded, this`marked, this`naccesses, vas
      ensures Valid() && t.ForShrink() == Move(old(t.ForShrink()), ShrinkSplit(bits)) && vanum <= old(vanum) + 1
      ensures marked == MarkOne(old(marked), bits, old(t.active)[0])
      ensures recorded == old(recorded) + if Accessed(bits)(old(t.active)[0]) then [old(t.active)[0]] else []
      ensures forall p: PageId :: Count(naccesses, p) == if p == old(t.active)[0] && Cold(bits)(p) then 0 else Count(old(naccesses), p)
    {
      hide Written, ReadOnly, Cold, Accessed, Promoted, Noted, StaysInactive;
      var p := t.active[0];
      TestsAt(bits, naccesses, p);
      t.active := t.active[1..];
      var b := bits(p);
      if b.accessed {
        if b.dirty {
          marked := marked[p := true];
          Record(p);
          t.written := t.written + [p];
        } else {
          marked := marked[p := false];
          Record(p);
          t.active := t.active + [p];
        }
      } else {
        naccesses := naccesses[p := 0];
        t.inactive := t.inactive + [p];
      }
    }

    method ShrinkCaches(t: Tier, bits: Reads)
      requires Valid() && vanum + |t.active| <= MAX_VAS
      modifies t, this`vanum, this`recorded, this`marked, this`naccesses, vas
      ensures Valid() && t.L() == Shrunk(old(t.L()), bits)
      ensures recorded == old(recorded) + Filter(old(t.active), Accessed(bits))
      ensures Recount(old(naccesses), naccesses, old(t.active), ShrunkCount(bits, old(naccesses)))
      ensures Remarked(old(marked), marked, old(t.active), bits)
    {
      hide Filter, Recount, Remarked;
      ghost var l, rec0, nacc0, mark0, w, i := t.ForShrink(), recorded, naccesses, marked, ShrinkSplit(bits), 0;
      PassStart(l, w, Accessed(bits));
      MarkStart(marked, l.source, bits);
      RecountStart(nacc0, l.source, ShrunkCount(bits, nacc0));
      var n := |t.active|;
      while n > 0 && |t.active| > 0
        invariant Valid() && 0 <= i <= |l.source| && n == |l.source| - i && vanum <= old(vanum) + i && t.ForShrink() == PassTo(l, w, i)
        invariant recorded == rec0 + Filter(l.source[..i], Accessed(bits))
        invariant Recount(nacc0, naccesses, l.source[..i], ShrunkCount(bits, nacc0)) && Remarked(mark0, marked, l.source[..i], bits)
        decreases n
      {
        PassTurn(l, w, i, Accessed(bits));
        RecountAt(nacc0, naccesses, l.source, i, ShrunkCount(bits, nacc0));
        ghost var was, mark := naccesses, marked;
        ShrinkPage(t, bits);
        RecountStep(nacc0, was, naccesses, l.source, i, ShrunkCount(bits, nacc0));
        MarkStep(mark0, mark, marked, l.source, i, bits);
        n, i := n - 1, i + 1;
      }
      PassEnd(l, w);
    }

    /** One turn of the loop of expand_caches. */
    method ExpandPage(t: Tier, bits: Reads)
      requires Valid() && vanum < MAX_VAS && t.inactive != []
      modifies t, this`vanum, this`recorded, this`marked, this`naccesses, vas
      ensures Valid() && t.ForExpand() == Move(old(t.ForExpand()), ExpandSplit(bits, old(naccesses))) && vanum <= old(vanum) + 1
      ensures marked == MarkOne(old(marked), bits, old(t.inactive)[0])
      ensures recorded == old(recorded) + if Noted(bits, old(naccesses))(old(t.inactive)[0]) then [old(t.inactive)[0]] else []
      ensures forall p: PageId ::
                Count(naccesses, p) == if p == old(t.inactive)[0] then ExpandedCount(bits, old(naccesses))(p) else Count(old(naccesses), p)
    {
      hide Written, ReadOnly, Cold, Accessed, Promoted, Noted, StaysInactive;
      var p := t.inactive[0];
      TestsAt(bits, naccesses, p);
      t.inactive := t.inactive[1..];
      var b := bits(p);
      if b.accessed {
        if b.dirty {
          marked := marked[p := true];
          t.written := t.written + [p];
        } else {
          marked := marked[p := false];
          if Count(naccesses, p) >= 4 {
            naccesses := naccesses[p := 0];
            t.active := t.active + [p];
          } else {
            naccesses := naccesses[p := Count(naccesses, p) + 1];
            Record(p);
            t.inactive := t.inactive + [p];
          }
        }
      } else {
        naccesses := naccesses[p := 0];
        t.inactive := t.inactive + [p];
      }
    }

    method ExpandCaches(t: Tier, bits: Reads)
      requires Valid() && vanum + |t.inactive| <= MAX_VAS && NoDup(t.inactive)
      modifies t, this`vanum, this`recorded, this`marked, this`naccesses, vas
      ensures Valid() && t.L() == Expanded(old(t.L()), bits, old(naccesses))
      ensures recorded == old(recorded) + Filter(old(t.inactive), Noted(bits, old(naccesses)))
      ensures Recount(old(naccesses), naccesses, old(t.inactive), ExpandedCount(bits, old(naccesses)))
      ensures Remarked(old(marked), marked, old(t.inactive), bits)
    {
      hide Filter, Recount, Remarked;
      ghost var l, rec0, nacc0, mark0 := t.ForExpand(), recorded, naccesses, marked;
      ghost var w := ExpandSplit(bits, nacc0);
      PassStart(l, w, Noted(bits, nacc0));
      MarkStart(marked, l.source, bits);
      RecountStart(nacc0, l.source, ExpandedCount(bits, nacc0));
      var n := |t.inactive|;
      for i := 0 to n
        invariant Valid() && vanum <= old(vanum) + i && t.ForExpand() == PassTo(l, w, i)
        invariant recorded == rec0 + Filter(l.source[..i], Noted(bits, nacc0))
        invariant Recount(nacc0, naccesses, l.source[..i], ExpandedCount(bits, nacc0)) && Remarked(mark0, marked, l.source[..i], bits)
      {
        PassTurn(l, w, i, Noted(bits, nacc0));
        RecountAt(nacc0, naccesses, l.source, i, ExpandedCount(bits, nacc0));
        ghost var was, mark := naccesses, marked;
        assert l.source[i] !in l.source[..i];
        ExpandPage(t, bits);
        RecountStep(nacc0, was, naccesses, l.source, i, ExpandedCount(bits, nacc0));
        MarkStep(mark0, mark, marked, l.source, i, bits);
      }
      PassEnd(l, w);
    }
  }

  // ---- room for the addresses ----

  ghost predicate Single(m: multiset<PageId>) { forall p: PageId :: m[p] <= 1 }

  lemma SingleNoDup(s: seq<PageId>, m: multiset<PageId>)
    requires multiset(s) <= m && Single(m)
    ensures NoDup(s)
  {
    forall i, j | 0 <= i < j < |s| ensures s[i] != s[j] {
      assert s == s[..i] + [s[i]] + s[i + 1..j] + [s[j]] + s[j + 1..];
      assert multiset(s)[s[i]] >= if s[i] == s[j] then 2 else 1;
      assert multiset(s)[s[i]] <= m[s[i]];
    }
  }

  /** Pages recorded in a tier and pages of it still to be looked at are different pages of that tier. */
  lemma RoomFor(recorded: seq<PageId>, next: seq<PageId>, mine: multiset<PageId>, theirs: multiset<PageId>, p: multiset<PageId>, q: multiset<PageId>)
    requires multiset(recorded) == mine + theirs && mine + multiset(next) <= p && theirs <= q && |p| + |q| <= MAX_VAS
    ensures |recorded| + |next| <= MAX_VAS
  {
    SubsetCard(mine + multiset(next), p);
    SubsetCard(theirs, q);
    assert |multiset(recorded)| == |recorded| && |multiset(next)| == |next|;
  }

  lemma SubsetCard(a: multiset<PageId>, b: multiset<PageId>)
    requires a <= b
    ensures |a| <= |b|
  {
    assert b == a + (b - a);
  }

  lemma SumBelow(a: multiset<PageId>, b: multiset<PageId>, p: multiset<PageId>, q: multiset<PageId>)
    requires a <= p && b <= q
    ensures a + b <= p + q
  {
  }

  lemma Joined(a: seq<PageId>, b: seq<PageId>)
    ensures multiset(a + b) == multiset(a) + multiset(b)
  {
  }

  lemma WrittenIn(l: Lists)
    ensures multiset{} + multiset(l.written) <= Pages(l)
  {
  }

  /** What the second and the third pass leave of a tier's budget. */
  lemma Budget2(l: Lists, bits: Reads, rec: multiset<PageId>, all: multiset<PageId>)
    requires rec + multiset(l.active) + multiset(l.inactive) == all
    ensures var rec', l' := rec + multiset(Filter(l.active, Accessed(bits))), Shrunk(l, bits);
            rec' + multiset(l'.inactive) == all && Pages(l') == Pages(l)
  {
    ShrunkKeeps(l, bits);
    hide Filter, Accessed, Shrunk;
    assert rec + multiset(Filter(l.active, Accessed(bits))) + multiset(Shrunk(l, bits).inactive)
        == rec + (multiset(Filter(l.active, Accessed(bits))) + multiset(Shrunk(l, bits).inactive));
  }

  lemma Budget3(l: Lists, bits: Reads, nacc: Counts, rec: multiset<PageId>, all: multiset<PageId>)
    requires rec + multiset(l.inactive) == all
    ensures rec + multiset(Filter(l.inactive, Noted(bits, nacc))) <= all && Pages(Expanded(l, bits, nacc)) == Pages(l)
  {
    ExpandedKeeps(l, bits, nacc);
  }

  // ---- one scan ----

  /** What the reads of the six passes return, each pass reading at its own time. */
  datatype ScanReads = ScanReads(checkDram: Reads, checkNvm: Reads, shrinkDram: Reads, shrinkNvm: Reads, expandDram: Reads, expandNvm: Reads)

  method PassOne(sc: Scanner, dram: Tier, nvm: Tier, bd: Reads, bn: Reads, ghost p: multiset<PageId>, ghost q: multiset<PageId>)
    returns (ghost d: multiset<PageId>, ghost n: multiset<PageId>, ghost marks: Marks)
    requires sc.Valid() && dram != nvm && sc.recorded == [] && Pages(dram.L()) == p && Pages(nvm.L()) == q && |p| + |q| <= MAX_VAS
    modifies sc, sc.vas, dram, nvm
    ensures sc.Valid() && Pages(dram.L()) == p && Pages(nvm.L()) == q && multiset(sc.recorded) == d + n
    ensures d + multiset(dram.active) + multiset(dram.inactive) == p && n + multiset(nvm.active) + multiset(nvm.inactive) == q
    ensures dram.L() == Checked(old(dram.L()), bd) && nvm.L() == Checked(old(nvm.L()), bn) && sc.naccesses == old(sc.naccesses)
    ensures sc.recorded == Filter(old(dram.written), Written(bd)) + Filter(old(nvm.written), Written(bn))
    ensures Remarked(old(sc.marked), marks, old(dram.written), bd) && Remarked(marks, sc.marked, old(nvm.written), bn)
  {
    hide Filter, Checked, Remarked, Pages, Written;
    ghost var ld, ln := dram.L(), nvm.L();
    ghost var rd, rn := Filter(ld.written, Written(bd)), Filter(ln.written, Written(bn));
    WrittenIn(ld);
    WrittenIn(ln);
    RoomFor([], dram.written, multiset{}, multiset{}, p, q);
    Budget1(ld, bd, ln, bn);
    RoomFor(rd, nvm.written, multiset{}, multiset(rd), q, p);
    sc.CheckWrites(dram, bd);
    assert sc.recorded == rd;
    marks := sc.marked;
    sc.CheckWrites(nvm, bn);
    d, n := multiset(rd), multiset(rn);
  }

  lemma Budget1(ld: Lists, bd: Reads, ln: Lists, bn: Reads)
    ensures var d, n := multiset(Filter(ld.written, Written(bd))), multiset(Filter(ln.written, Written(bn)));
            && multiset(Filter(ld.written, Written(bd))) == multiset{} + d
            && multiset(Filter(ld.written, Written(bd)) + Filter(ln.written, Written(bn))) == d + n
            && d + multiset(Checked(ld, bd).active) + multiset(Checked(ld, bd).inactive) == Pages(ld) && d <= Pages(ld)
            && n + multiset(Checked(ln, bn).active) + multiset(Checked(ln, bn).inactive) == Pages(ln)
            && Pages(Checked(ld, bd)) == Pages(ld) && Pages(Checked(ln, bn)) == Pages(ln)
  {
    CheckedKeeps(ld, bd);
    CheckedKeeps(ln, bn);
    hide Filter, Checked, Pages, Written;
    Joined(Filter(ld.written, Written(bd)), Filter(ln.written, Written(bn)));
  }

  method PassTwo(sc: Scanner, dram: Tier, nvm: Tier, bd: Reads, bn: Reads, ghost p: multiset<PageId>, ghost q: multiset<PageId>,
                 ghost d0: multiset<PageId>, ghost n0: multiset<PageId>)
    returns (ghost d: multiset<PageId>, ghost n: multiset<PageId>, ghost marks: Marks, ghost counts: Counts)
    requires sc.Valid() && dram != nvm && Pages(dram.L()) == p && Pages(nvm.L()) == q && |p| + |q| <= MAX_VAS
    requires multiset(sc.recorded) == d0 + n0
    requires d0 + multiset(dram.active) + multiset(dram.inactive) == p && n0 + multiset(nvm.active) + multiset(nvm.inactive) == q
    modifies sc, sc.vas, dram, nvm
    ensures sc.Valid() && Pages(dram.L()) == p && Pages(nvm.L()) == q && multiset(sc.recorded) == d + n
    ensures d + multiset(dram.inactive) == p && n + multiset(nvm.inactive) == q
    ensures dram.L() == Shrunk(old(dram.L()), bd) && nvm.L() == Shrunk(old(nvm.L()), bn)
    ensures sc.recorded == old(sc.recorded) + Filter(old(dram.active), Accessed(bd)) + Filter(old(nvm.active), Accessed(bn))
    ensures Recount(old(sc.naccesses), counts, old(dram.active), ShrunkCount(bd, old(sc.naccesses)))
    ensures Recount(counts, sc.naccesses, old(nvm.active), ShrunkCount(bn, counts))
    ensures Remarked(old(sc.marked), marks, old(dram.active), bd) && Remarked(marks, sc.marked, old(nvm.active), bn)
  {
    hide Filter, Shrunk, Remarked, Recount, Pages, Accessed, ShrunkCount;
    ghost var ld, ln, was := dram.L(), nvm.L(), sc.recorded;
    Budget2(ld, bd, d0, p);
    Budget2(ln, bn, n0, q);
    RoomFor(sc.recorded, dram.active, d0, n0, p, q);
    sc.ShrinkCaches(dram, bd);
    marks, counts := sc.marked, sc.naccesses;
    Joined(was, Filter(ld.active, Accessed(bd)));
    d := d0 + multiset(Filter(ld.active, Accessed(bd)));
    was := sc.recorded;
    assert multiset(was) == n0 + d;
    RoomFor(sc.recorded, nvm.active, n0, d, q, p);
    sc.ShrinkCaches(nvm, bn);
    Joined(was, Filter(ln.active, Accessed(bn)));
    n := n0 + multiset(Filter(ln.active, Accessed(bn)));
  }

  method PassThree(sc: Scanner, dram: Tier, nvm: Tier, bd: Reads, bn: Reads, ghost p: multiset<PageId>, ghost q: multiset<PageId>,
                   ghost d0: multiset<PageId>, ghost n0: multiset<PageId>)
    returns (ghost d: multiset<PageId>, ghost n: multiset<PageId>, ghost marks: Marks, ghost counts: Counts)
    requires sc.Valid() && dram != nvm && Pages(dram.L()) == p && Pages(nvm.L()) == q && |p| + |q| <= MAX_VAS && Single(p + q)
    requires multiset(sc.recorded) == d0 + n0 && d0 + multiset(dram.inactive) == p && n0 + multiset(nvm.inactive) == q
    modifies sc, sc.vas, dram, nvm
    ensures sc.Valid() && Pages(dram.L()) == p && Pages(nvm.L()) == q && multiset(sc.recorded) == d + n && d <= p && n <= q
    ensures dram.L() == Expanded(old(dram.L()), bd, old(sc.naccesses)) && nvm.L() == Expanded(old(nvm.L()), bn, counts)
    ensures sc.recorded == old(sc.recorded) + Filter(old(dram.inactive), Noted(bd, old(sc.naccesses))) + Filter(old(nvm.inactive), Noted(bn, counts))
    ensures Recount(old(sc.naccesses), counts, old(dram.inactive), ExpandedCount(bd, old(sc.naccesses)))
    ensures Recount(counts, sc.naccesses, old(nvm.inactive), ExpandedCount(bn, counts))
    ensures Remarked(old(sc.marked), marks, old(dram.inactive), bd) && Remarked(marks, sc.marked, old(nvm.inactive), bn)
  {
    hide Filter, Expanded, Remarked, Recount, Pages, Single, NoDup, Noted;
    ghost var ld, ln, was, nacc := dram.L(), nvm.L(), sc.recorded, sc.naccesses;
    Budget3(ld, bd, nacc, d0, p);
    SingleNoDup(dram.inactive, p + q);
    SingleNoDup(nvm.inactive, p + q);
    RoomFor(sc.recorded, dram.inactive, d0, n0, p, q);
    d := d0 + multiset(Filter(ld.inactive, Noted(bd, nacc)));
    Joined(was, Filter(ld.inactive, Noted(bd, nacc)));
    sc.ExpandCaches(dram, bd);
    marks, counts := sc.marked, sc.naccesses;
    was := sc.recorded;
    assert multiset(was) == n0 + d;
    Budget3(ln, bn, counts, n0, q);
    RoomFor(sc.recorded, nvm.inactive, n0, d, q, p);
    n := n0 + multiset(Filter(ln.inactive, Noted(bn, counts)));
    Joined(was, Filter(ln.inactive, Noted(bn, counts)));
    sc.ExpandCaches(nvm, bn);
  }

  /** Access counts between the passes that change them, from before the scan to after it. */
  datatype CountTrace = CountTrace(c0: Counts, c1: Counts, c2: Counts, c3: Counts, c4: Counts)

  /** Where a tier's pages are after the three passes. */
  function Scanned(l: Lists, check: Reads, shrink: Reads, expand: Reads, naccesses: Counts): Lists {
    Expanded(Shrunk(Checked(l, check), shrink), expand, naccesses)
  }

  /** Each count is determined by the one before, the pages visited and the bits read. */
  ghost predicate CountsOk(t: CountTrace, r: ScanReads, dram: Lists, nvm: Lists) {
    && Recount(t.c0, t.c1, Checked(dram, r.checkDram).active, ShrunkCount(r.shrinkDram, t.c0))
    && Recount(t.c1, t.c2, Checked(nvm, r.checkNvm).active, ShrunkCount(r.shrinkNvm, t.c1))
    && Recount(t.c2, t.c3, Shrunk(Checked(dram, r.checkDram), r.shrinkDram).inactive, ExpandedCount(r.expandDram, t.c2))
    && Recount(t.c3, t.c4, Shrunk(Checked(nvm, r.checkNvm), r.shrinkNvm).inactive, ExpandedCount(r.expandNvm, t.c3))
  }

  /** The written flags between the six passes. */
  datatype MarkTrace = MarkTrace(m0: Marks, m1: Marks, m2: Marks, m3: Marks, m4: Marks, m5: Marks, m6: Marks)

  ghost predicate MarksOk(t: MarkTrace, r: ScanReads, dram: Lists, nvm: Lists) {
    && Remarked(t.m0, t.m1, dram.written, r.checkDram) && Remarked(t.m1, t.m2, nvm.written, r.checkNvm)
    && Remarked(t.m2, t.m3, Checked(dram, r.checkDram).active, r.shrinkDram) && Remarked(t.m3, t.m4, Checked(nvm, r.checkNvm).active, r.shrinkNvm)
    && Remarked(t.m4, t.m5, Shrunk(Checked(dram, r.checkDram), r.shrinkDram).inactive, r.expandDram)
    && Remarked(t.m5, t.m6, Shrunk(Checked(nvm, r.checkNvm), r.shrinkNvm).inactive, r.expandNvm)
  }

  /** The pages recorded by the six passes, in order. */
  function RecordedBy(t: CountTrace, r: ScanReads, dram: Lists, nvm: Lists): seq<PageId> {
    var dram1, nvm1 := Checked(dram, r.checkDram), Checked(nvm, r.checkNvm);
    var dram2, nvm2 := Shrunk(dram1, r.shrinkDram), Shrunk(nvm1, r.shrinkNvm);
    Filter(dram.written, Written(r.checkDram)) + Filter(nvm.written, Written(r.checkNvm))
    + Filter(dram1.active, Accessed(r.shrinkDram)) + Filter(nvm1.active, Accessed(r.shrinkNvm))
    + Filter(dram2.inactive, Noted(r.expandDram, t.c2)) + Filter(nvm2.inactive, Noted(r.expandNvm, t.c3))
  }

  /** The six passes. */
  method SixPasses(sc: Scanner, dram: Tier, nvm: Tier, r: ScanReads, ghost p: multiset<PageId>, ghost q: multiset<PageId>)
    returns (ghost d: multiset<PageId>, ghost n: multiset<PageId>, ghost counts: CountTrace, ghost marks: MarkTrace)
    requires sc.Valid() && dram != nvm && sc.recorded == [] && Pages(dram.L()) == p && Pages(nvm.L()) == q && |p| + |q| <= MAX_VAS && Single(p + q)
    modifies sc, sc.vas, dram, nvm
    ensures sc.Valid() && Pages(dram.L()) == p && Pages(nvm.L()) == q && multiset(sc.recorded) == d + n && d <= p && n <= q
    ensures counts.c0 == old(sc.naccesses) && counts.c4 == sc.naccesses && CountsOk(counts, r, old(dram.L()), old(nvm.L()))
    ensures marks.m0 == old(sc.marked) && marks.m6 == sc.marked && MarksOk(marks, r, old(dram.L()), old(nvm.L()))
    ensures dram.L() == Scanned(old(dram.L()), r.checkDram, r.shrinkDram, r.expandDram, counts.c2)
    ensures nvm.L() == Scanned(old(nvm.L()), r.checkNvm, r.shrinkNvm, r.expandNvm, counts.c3)
    ensures sc.recorded == RecordedBy(counts, r, old(dram.L()), old(nvm.L()))
  {
    hide Filter, Checked, Shrunk, Expanded, Pages, Recount, Remarked, NoDup, Single, Scanner.Valid;
    ghost var c0, m0 := sc.naccesses, sc.marked;
    ghost var m1, m3, c1, m5, c3;
    d, n, m1 := PassOne(sc, dram, nvm, r.checkDram, r.checkNvm, p, q);
    ghost var m2 := sc.marked;
    d, n, m3, c1 := PassTwo(sc, dram, nvm, r.shrinkDram, r.shrinkNvm, p, q, d, n);
    ghost var c2, m4 := sc.naccesses, sc.marked;
    d, n, m5, c3 := PassThree(sc, dram, nvm, r.expandDram, r.expandNvm, p, q, d, n);
    counts := CountTrace(c0, c1, c2, c3, sc.naccesses);
    marks := MarkTrace(m0, m1, m2, m3, m4, m5, sc.marked);
  }

  /** Both tiers and the access counts, between scans. */
  datatype Lru = Lru(dram: Lists, nvm: Lists, counts: Counts) {
    function Tier(inDram: bool): Lists { if inDram then dram else nvm }
  }

  /** What a scan that takes a to b promises, with the reads and the counts on the way. */
  ghost predicate Scans(a: Lru, b: Lru, r: ScanReads, t: CountTrace) {
    && t.c0 == a.counts && t.c4 == b.counts && CountsOk(t, r, a.dram, a.nvm)
    && b.dram == Scanned(a.dram, r.checkDram, r.shrinkDram, r.expandDram, t.c2)
    && b.nvm == Scanned(a.nvm, r.checkNvm, r.shrinkNvm, r.expandNvm, t.c3)
  }

  /** The loop over the recorded addresses. */
  method ClearAll(sc: Scanner) returns (cleared: seq<Address>)
    requires sc.Valid()
    ensures cleared == Vas(sc.va, sc.recorded)
  {
    cleared := [];
    for i := 0 to sc.vanum
      invariant cleared == sc.vas[..i]
    {
      cleared := cleared + [sc.vas[i]];
    }
  }

  /**
   One scan of lru_kscand. If no page is on two lists and there are at most MAX_VAS pages, every
   assertion on vanum holds, no page changes tier or gets lost, and no page is recorded twice; lists,
   counts and flags are those the six passes give.
   */
  method Scan(sc: Scanner, dram: Tier, nvm: Tier, r: ScanReads) returns (cleared: seq<Address>, ghost counts: CountTrace, ghost marks: MarkTrace)
    requires sc.Valid() && dram != nvm
    requires Single(Pages(dram.L()) + Pages(nvm.L())) && |Pages(dram.L())| + |Pages(nvm.L())| <= MAX_VAS
    modifies sc, sc.vas, dram, nvm
    ensures sc.Valid() && Pages(dram.L()) == old(Pages(dram.L())) && Pages(nvm.L()) == old(Pages(nvm.L()))
    ensures NoDup(sc.recorded) && multiset(sc.recorded) <= Pages(dram.L()) + Pages(nvm.L())
    ensures counts.c0 == old(sc.naccesses) && counts.c4 == sc.naccesses && CountsOk(counts, r, old(dram.L()), old(nvm.L()))
    ensures marks.m0 == old(sc.marked) && marks.m6 == sc.marked && MarksOk(marks, r, old(dram.L()), old(nvm.L()))
    ensures dram.L() == Scanned(old(dram.L()), r.checkDram, r.shrinkDram, r.expandDram, counts.c2)
    ensures nvm.L() == Scanned(old(nvm.L()), r.checkNvm, r.shrinkNvm, r.expandNvm, counts.c3)
    ensures sc.recorded == RecordedBy(counts, r, old(dram.L()), old(nvm.L()))
    ensures Scans(Lru(old(dram.L()), old(nvm.L()), old(sc.naccesses)), Lru(dram.L(), nvm.L(), sc.naccesses), r, counts)
    ensures cleared == Vas(sc.va, sc.recorded)
  {
    hide Filter, Scanned, Pages, CountsOk, MarksOk, NoDup, Single, RecordedBy;
    ghost var p, q := Pages(dram.L()), Pages(nvm.L());
    sc.vanum, sc.recorded := 0, [];
    ghost var d, n;
    d, n, counts, marks := SixPasses(sc, dram, nvm, r, p, q);
    SumBelow(d, n, p, q);
    SingleNoDup(sc.recorded, p + q);
    cleared := ClearAll(sc);
  }

  /** Pages with different addresses: each address is cleared at most once. */
  lemma ClearedOnce(va: PageId -> Address, recorded: seq<PageId>)
    requires NoDup(recorded) && forall p, q :: p in recorded && q in recorded && va(p) == va(q) ==> p == q
    ensures NoDup(Vas(va, recorded))
  {
    var vas := Vas(va, recorded);
    forall i, j | 0 <= i < j < |vas| ensures vas[i] != vas[j] {
      assert recorded[i] in recorded && recorded[j] in recorded && vas[i] == va(recorded[i]) && vas[j] == va(recorded[j]);
    }
  }
}
