/**
 What one scan of the LRU policy does to one page: a small state machine on the page's list, its access
 count and the bits read, and the proof that every scan runs every page through it.
 */
module LruFate {
  import opened Basics
  import opened LruScan

  datatype Place = OnActive | OnInactive | OnWritten

  /** A page's list and access count, and whether its address has been recorded in this scan. */
  datatype Standing = Standing(place: Place, count: nat, recorded: bool)

  // ---- the machine ----

  /** check_writes */
  function CheckTurn(s: Standing, b: Access): Standing {
    if s.place != OnWritten then s
    else if !b.accessed then s.(place := OnInactive)
    else if b.dirty then s.(recorded := true)
    else s.(place := OnActive)
  }

  /** shrink_caches */
  function ShrinkTurn(s: Standing, b: Access): Standing {
    if s.place != OnActive then s
    else if !b.accessed then s.(place := OnInactive, count := 0)
    else if b.dirty then s.(place := OnWritten, recorded := true)
    else s.(recorded := true)
  }

  /** expand_caches */
  function ExpandTurn(s: Standing, b: Access): Standing {
    if s.place != OnInactive then s
    else if !b.accessed then s.(count := 0)
    else if b.dirty then s.(place := OnWritten)
    else if s.count >= 4 then s.(place := OnActive, count := 0)
    else s.(count := s.count + 1, recorded := true)
  }

  /** A whole scan, from what its three passes read. */
  function ScanTurn(s: Standing, b1: Access, b2: Access, b3: Access): Standing {
    ExpandTurn(ShrinkTurn(CheckTurn(s.(recorded := false), b1), b2), b3)
  }

  // ---- where a page is ----

  function ListAt(l: Lists, w: Place): seq<PageId> {
    match w case OnActive => l.active case OnInactive => l.inactive case OnWritten => l.written
  }

  /** Page p is on this list of the tier and on no other. */
  ghost predicate Stands(l: Lists, p: PageId, place: Place) {
    forall w: Place :: p in ListAt(l, w) <==> w == place
  }

  ghost predicate Absent(l: Lists, p: PageId) {
    forall w: Place :: p !in ListAt(l, w)
  }

  lemma CheckStands(l: Lists, bits: Reads, p: PageId, s: Standing)
    requires Stands(l, p, s.place)
    ensures Stands(Checked(l, bits), p, CheckTurn(s, bits(p)).place)
    ensures CheckTurn(s, bits(p)).recorded <==> s.recorded || p in Filter(l.written, Written(bits))
  {
    StandsAt(l, p, s.place);
    TestsAt(bits, map[], p);
  }

  lemma ShrinkStands(l: Lists, bits: Reads, p: PageId, s: Standing)
    requires Stands(l, p, s.place)
    ensures Stands(Shrunk(l, bits), p, ShrinkTurn(s, bits(p)).place)
    ensures ShrinkTurn(s, bits(p)).recorded <==> s.recorded || p in Filter(l.active, Accessed(bits))
  {
    StandsAt(l, p, s.place);
    TestsAt(bits, map[], p);
  }

  lemma ExpandStands(l: Lists, bits: Reads, naccesses: Counts, p: PageId, s: Standing)
    requires Stands(l, p, s.place) && Count(naccesses, p) == s.count
    ensures Stands(Expanded(l, bits, naccesses), p, ExpandTurn(s, bits(p)).place)
    ensures ExpandTurn(s, bits(p)).recorded <==> s.recorded || p in Filter(l.inactive, Noted(bits, naccesses))
  {
    StandsAt(l, p, s.place);
    TestsAt(bits, naccesses, p);
  }

  lemma AbsentStays(l: Lists, check: Reads, shrink: Reads, expand: Reads, naccesses: Counts, p: PageId)
    requires Absent(l, p)
    ensures Absent(Checked(l, check), p) && Absent(Shrunk(Checked(l, check), shrink), p) && Absent(Scanned(l, check, shrink, expand, naccesses), p)
  {
    assert p !in ListAt(l, OnActive) && p !in ListAt(l, OnInactive) && p !in ListAt(l, OnWritten);
  }

  lemma CountShrunk(was: Counts, now: Counts, l: Lists, bits: Reads, p: PageId, s: Standing)
    requires Recount(was, now, l.active, ShrunkCount(bits, was)) && Stands(l, p, s.place) && Count(was, p) == s.count
    ensures Count(now, p) == ShrinkTurn(s, bits(p)).count
  {
    assert p in ListAt(l, OnActive) <==> s.place == OnActive;
    TestsAt(bits, was, p);
  }

  lemma CountExpanded(was: Counts, now: Counts, l: Lists, bits: Reads, p: PageId, s: Standing)
    requires Recount(was, now, l.inactive, ExpandedCount(bits, was)) && Stands(l, p, s.place) && Count(was, p) == s.count
    ensures Count(now, p) == ExpandTurn(s, bits(p)).count
  {
    assert p in ListAt(l, OnInactive) <==> s.place == OnInactive;
    TestsAt(bits, was, p);
  }

  lemma CountElsewhere(was: Counts, now: Counts, visited: seq<PageId>, value: PageId -> int, p: PageId)
    requires Recount(was, now, visited, value) && p !in visited
    ensures Count(now, p) == Count(was, p)
  {
  }

  // ---- one scan ----

  /** Page p is on one list, of this tier, with this count. */
  ghost predicate Has(a: Lru, inDram: bool, p: PageId, s: Standing) {
    Stands(a.Tier(inDram), p, s.place) && Absent(a.Tier(!inDram), p) && Count(a.counts, p) == s.count
  }

  function Reads1(r: ScanReads, inDram: bool, p: PageId): Access { if inDram then r.checkDram(p) else r.checkNvm(p) }
  function Reads2(r: ScanReads, inDram: bool, p: PageId): Access { if inDram then r.shrinkDram(p) else r.shrinkNvm(p) }
  function Reads3(r: ScanReads, inDram: bool, p: PageId): Access { if inDram then r.expandDram(p) else r.expandNvm(p) }

  function Turned(s: Standing, r: ScanReads, inDram: bool, p: PageId): Standing {
    ScanTurn(s, Reads1(r, inDram, p), Reads2(r, inDram, p), Reads3(r, inDram, p))
  }

  lemma DramTurn(a: Lru, b: Lru, r: ScanReads, t: CountTrace, p: PageId, s: Standing)
    requires Scans(a, b, r, t) && Has(a, true, p, s)
    ensures Has(b, true, p, Turned(s, r, true, p))
    ensures Turned(s, r, true, p).recorded <==> p in RecordedBy(t, r, a.dram, a.nvm)
  {
    var l1 := Checked(a.dram, r.checkDram);
    var l2 := Shrunk(l1, r.shrinkDram);
    var n1 := Checked(a.nvm, r.checkNvm);
    var n2 := Shrunk(n1, r.shrinkNvm);
    var s0 := s.(recorded := false);
    var s1 := CheckTurn(s0, r.checkDram(p));
    var s2 := ShrinkTurn(s1, r.shrinkDram(p));
    AbsentStays(a.nvm, r.checkNvm, r.shrinkNvm, r.expandNvm, t.c3, p);
    CheckStands(a.dram, r.checkDram, p, s0);
    ShrinkStands(l1, r.shrinkDram, p, s1);
    assert p !in ListAt(a.nvm, OnWritten) && p !in ListAt(n1, OnActive) && p !in ListAt(n2, OnInactive);
    hide Stands, Absent, Checked, Shrunk, Expanded, Recount, Filter, Written, Accessed, Noted, CheckTurn, ShrinkTurn, ExpandTurn;
    CountShrunk(t.c0, t.c1, l1, r.shrinkDram, p, s1);
    CountElsewhere(t.c1, t.c2, n1.active, ShrunkCount(r.shrinkNvm, t.c1), p);
    ExpandStands(l2, r.expandDram, t.c2, p, s2);
    CountExpanded(t.c2, t.c3, l2, r.expandDram, p, s2);
    CountElsewhere(t.c3, t.c4, n2.inactive, ExpandedCount(r.expandNvm, t.c3), p);
  }

  lemma NvmTurn(a: Lru, b: Lru, r: ScanReads, t: CountTrace, p: PageId, s: Standing)
    requires Scans(a, b, r, t) && Has(a, false, p, s)
    ensures Has(b, false, p, Turned(s, r, false, p))
    ensures Turned(s, r, false, p).recorded <==> p in RecordedBy(t, r, a.dram, a.nvm)
  {
    var l1 := Checked(a.nvm, r.checkNvm);
    var l2 := Shrunk(l1, r.shrinkNvm);
    var d1 := Checked(a.dram, r.checkDram);
    var d2 := Shrunk(d1, r.shrinkDram);
    var s0 := s.(recorded := false);
    var s1 := CheckTurn(s0, r.checkNvm(p));
    var s2 := ShrinkTurn(s1, r.shrinkNvm(p));
    AbsentStays(a.dram, r.checkDram, r.shrinkDram, r.expandDram, t.c2, p);
    CheckStands(a.nvm, r.checkNvm, p, s0);
    ShrinkStands(l1, r.shrinkNvm, p, s1);
    assert p !in ListAt(a.dram, OnWritten) && p !in ListAt(d1, OnActive) && p !in ListAt(d2, OnInactive);
    hide Stands, Absent, Checked, Shrunk, Expanded, Recount, Filter, Written, Accessed, Noted, CheckTurn, ShrinkTurn, ExpandTurn;
    CountElsewhere(t.c0, t.c1, d1.active, ShrunkCount(r.shrinkDram, t.c0), p);
    CountShrunk(t.c1, t.c2, l1, r.shrinkNvm, p, s1);
    CountElsewhere(t.c2, t.c3, d2.inactive, ExpandedCount(r.expandDram, t.c2), p);
    ExpandStands(l2, r.expandNvm, t.c3, p, s2);
    CountExpanded(t.c3, t.c4, l2, r.expandNvm, p, s2);
  }

  /** Every scan takes every page through its machine: list, count, and whether its bits are cleared. */
  lemma ScanFate(a: Lru, b: Lru, r: ScanReads, t: CountTrace, inDram: bool, p: PageId, s: Standing)
    requires Scans(a, b, r, t) && Has(a, inDram, p, s)
    ensures Has(b, inDram, p, Turned(s, r, inDram, p))
    ensures Turned(s, r, inDram, p).recorded <==> p in RecordedBy(t, r, a.dram, a.nvm)
  {
    hide Scans, Has, Turned, RecordedBy;
    if inDram { DramTurn(a, b, r, t, p, s); } else { NvmTurn(a, b, r, t, p, s); }
  }

  // ---- scans in a row ----

  /** Scans one after the other, with nothing in between that moves a page. */
  ghost predicate ScansInARow(h: seq<Lru>, rs: seq<ScanReads>, ts: seq<CountTrace>) {
    |h| == |rs| + 1 == |ts| + 1 && forall i :: 0 <= i < |rs| ==> Scans(h[i], h[i + 1], rs[i], ts[i])
  }

  /** What the machine makes of a page in the course of them. */
  function Course(s: Standing, rs: seq<ScanReads>, inDram: bool, p: PageId): Standing {
    if rs == [] then s else Turned(Course(s, rs[..|rs| - 1], inDram, p), rs[|rs| - 1], inDram, p)
  }

  lemma {:induction false} ScansFate(h: seq<Lru>, rs: seq<ScanReads>, ts: seq<CountTrace>, inDram: bool, p: PageId, s: Standing)
    requires ScansInARow(h, rs, ts) && Has(h[0], inDram, p, s)
    ensures Has(h[|rs|], inDram, p, Course(s, rs, inDram, p))
  {
    if rs != [] {
      var n := |rs| - 1;
      ScansFate(h[..n + 1], rs[..n], ts[..n], inDram, p, s);
      hide Has, Scans, Turned;
      ScanFate(h[n], h[n + 1], rs[n], ts[n], inDram, p, Course(s, rs[..n], inDram, p));
    }
  }

  /** Does the third pass of this scan find the page read and not written? */
  predicate ReadThen(r: ScanReads, inDram: bool, p: PageId) {
    Reads3(r, inDram, p).accessed && !Reads3(r, inDram, p).dirty
  }

  /** An inactive page that is only read counts up to four. */
  lemma {:induction false} ReadCourse(rs: seq<ScanReads>, inDram: bool, p: PageId, s: Standing)
    requires |rs| <= 4 && s.place == OnInactive && s.count == 0 && forall i :: 0 <= i < |rs| ==> ReadThen(rs[i], inDram, p)
    ensures Course(s, rs, inDram, p).place == OnInactive && Course(s, rs, inDram, p).count == |rs|
  {
    if rs != [] { ReadCourse(rs[..|rs| - 1], inDram, p, s); }
  }

  /** An inactive page that starts at zero and is read and not written in five scans in a row is active after the fifth, and not before. */
  lemma FiveReadsActivate(h: seq<Lru>, rs: seq<ScanReads>, ts: seq<CountTrace>, inDram: bool, p: PageId)
    requires ScansInARow(h, rs, ts) && |rs| == 5 && Has(h[0], inDram, p, Standing(OnInactive, 0, false))
    requires forall i :: 0 <= i < 5 ==> ReadThen(rs[i], inDram, p)
    ensures forall i :: 0 <= i < 5 ==> p in h[i].Tier(inDram).inactive && p !in h[i].Tier(inDram).active && Count(h[i].counts, p) == i
    ensures p in h[5].Tier(inDram).active && p !in h[5].Tier(inDram).inactive && Count(h[5].counts, p) == 0
  {
    var s := Standing(OnInactive, 0, false);
    forall i | 0 <= i <= 5
      ensures p in h[i].Tier(inDram).inactive <==> i < 5
      ensures p in h[i].Tier(inDram).active <==> i == 5
      ensures Count(h[i].counts, p) == if i < 5 then i else 0
    {
      var rs', c := rs[..i], Course(s, rs[..i], inDram, p);
      ScansFate(h[..i + 1], rs', ts[..i], inDram, p, s);
      if i < 5 {
        ReadCourse(rs', inDram, p, s);
      } else {
        ReadCourse(rs'[..4], inDram, p, s);
        assert rs'[..|rs'| - 1] == rs'[..4];
      }
      StandsAt(h[i].Tier(inDram), p, c.place);
    }
  }

  lemma StandsAt(l: Lists, p: PageId, place: Place)
    requires Stands(l, p, place)
    ensures (p in l.active <==> place == OnActive) && (p in l.inactive <==> place == OnInactive) && (p in l.written <==> place == OnWritten)
  {
    assert (p in ListAt(l, OnActive) <==> place == OnActive) && (p in ListAt(l, OnInactive) <==> place == OnInactive);
    assert p in ListAt(l, OnWritten) <==> place == OnWritten;
  }
}
