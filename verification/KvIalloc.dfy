/**
 The item allocator as functions on segments, lists and allocators: what `ialloc_alloc` and
 `ialloc_cleanup_item` do to them, and how many segments a core can still get.
 */
module KvIalloc {
  import opened Basics
  import opened KvTable
  import opened KvLog
  import opened KvInvariant
  import opened KvCore
  import opened KvAlloc
  import opened KvWalk

  /** The store's constants, and its state at one moment. */
  datatype Settings = Settings(hash: Hash, segsize: nat, maxnum: nat, cqsize: nat, cleanRatio: real)
  datatype Snapshot = Snapshot(core: Core, alloc: Alloc)

  // ---- segment_alloc ----

  /** No segment is free and none is left to create. */
  predicate Exhausted(g: Alloc, maxnum: nat) { g.freeHead == None && g.alloced >= maxnum }

  function NextId(g: Alloc): SegId { if g.freeHead.Some? then g.freeHead.value else g.alloced }

  /** NextId(g) has been taken in hand. */
  function Obtained(g: Alloc, segsize: nat): Alloc {
    if g.freeHead == None then Create(g, segsize)
    else if g.freeHead.value in g.m.segs && g.pools.free != [] then TakeFree(g)
    else g
  }

  // ---- segment_item_alloc ----

  function Cur(g: Alloc, c: int): SegId { if 0 <= c < |g.ias| then g.ias[c].cur else -1 }

  /** Bytes left in core c's current segment. */
  function Room(g: Alloc, c: int): int {
    if Cur(g, c) in g.m.segs then g.m.segs[Cur(g, c)].size - g.m.segs[Cur(g, c)].offset else 0
  }

  /** The end of the current segment is written off. */
  function WrittenOff(g: Alloc, c: int): Alloc {
    var h := Cur(g, c);
    if h in g.m.segs && Room(g, c) > 0 then g.(m := g.m.(segs := g.m.segs[h := Closed(g.m.segs[h])])) else g
  }

  /** An item of this size at the end of the current segment. */
  function PlacedIn(g: Alloc, c: int, total: nat): Alloc {
    var h := Cur(g, c);
    if h in g.m.segs && h in g.m.logs then g.(m := Placed(g.m, h, total)) else g
  }

  function EndOf(g: Alloc, c: int): Addr {
    var h := Cur(g, c);
    Addr(h, if h in g.m.segs then g.m.segs[h].offset else 0)
  }

  // ---- ialloc_alloc ----

  function Extended(g: Alloc, c: int, h: SegId): Alloc {
    if 0 <= c < |g.ias| == |g.pools.chains| && h in g.m.segs && g.ias[c].cur in g.m.segs then Append(g, c, h) else g
  }

  function WithReserve(g: Alloc, c: int, h: Option<SegId>): Alloc {
    if 0 <= c < |g.ias| then Reserve(g, c, h) else g
  }

  function Reserved(g: Alloc, c: int): Option<SegId> { if 0 <= c < |g.ias| then g.ias[c].reserved else None }

  /** A new current segment, if one can be had. */
  function NextCur(g: Alloc, c: int, cleanup: bool, maxnum: nat, segsize: nat): Option<Alloc> {
    if !Exhausted(g, maxnum) then Some(Extended(Obtained(g, segsize), c, NextId(g)))
    else if cleanup && Reserved(g, c).Some? then Some(Extended(WithReserve(g, c, None), c, Reserved(g, c).value))
    else None
  }

  /** The segments after `ialloc_alloc`, and the address it returns. */
  function Ialloc(g: Alloc, c: int, total: nat, cleanup: bool, maxnum: nat, segsize: nat): (Alloc, Option<Addr>) {
    if Reserved(g, c) == None && !cleanup then (g, None)
    else if total <= Room(g, c) then (PlacedIn(g, c, total), Some(EndOf(g, c)))
    else
      match NextCur(WrittenOff(g, c), c, cleanup, maxnum, segsize)
      case None => (WrittenOff(g, c), None)
      case Some(g1) => (PlacedIn(g1, c, total), Some(EndOf(g1, c)))
  }

  // ---- ialloc_cleanup_item ----

  /** Items cleaned per request. */
  const CLEANUP_LIMIT: nat := 32

  function Queue(g: Alloc, c: int): seq<Addr> { if 0 <= c < |g.ias| then g.ias[c].queue else [] }

  function Worked(g: Alloc, c: int, queue: seq<Addr>, count: nat): Alloc {
    if 0 <= c < |g.ias| then g.(ias := g.ias[c := g.ias[c].(queue := queue, cleanupCount := count)]) else g
  }

  function CleanupCount(g: Alloc, c: int): nat { if 0 <= c < |g.ias| then g.ias[c].cleanupCount else 0 }

  /** The reserve is refilled, if it is empty and a segment can be had. */
  function Refilled(g: Alloc, c: int, maxnum: nat, segsize: nat): Alloc {
    if Reserved(g, c) == None && !Exhausted(g, maxnum) then WithReserve(Obtained(g, segsize), c, Some(NextId(g))) else g
  }

  predicate Limited(g: Alloc, c: int, idle: bool) { !idle && CleanupCount(g, c) >= CLEANUP_LIMIT }

  /** After `ialloc_cleanup_item` below its limit. */
  function Taken(g: Alloc, c: int, idle: bool, maxnum: nat, segsize: nat): Alloc {
    var q := Queue(g, c);
    var count := if idle then CleanupCount(g, c) else CleanupCount(g, c) + 1;
    Refilled(Worked(g, c, if q == [] then [] else q[1..], count), c, maxnum, segsize)
  }

  // ---- how many segments core c can still get ----

  function Stock(g: Alloc, c: int, maxnum: nat): nat {
    |g.pools.free| + (if g.alloced < maxnum then maxnum - g.alloced else 0) + if Reserved(g, c).Some? then 1 else 0
  }

  /** An allocation takes at most one segment, and for cleanup fails only when core c can get none. */
  lemma IallocStock(g: Alloc, c: int, total: nat, cleanup: bool, maxnum: nat, segsize: nat)
    requires Ok(g) && 0 <= c < |g.ias|
    ensures var (g', a) := Ialloc(g, c, total, cleanup, maxnum, segsize);
            Stock(g', c, maxnum) + 1 >= Stock(g, c, maxnum) && (cleanup && Stock(g, c, maxnum) > 0 ==> a.Some?)
  {
    var w := WrittenOff(g, c);
    NextStock(g, w, c, cleanup, maxnum, segsize);
    hide AllocOk, NextCur;
  }

  lemma NextStock(g: Alloc, w: Alloc, c: int, cleanup: bool, maxnum: nat, segsize: nat)
    requires Ok(g) && 0 <= c < |g.ias| && w == WrittenOff(g, c)
    ensures match NextCur(w, c, cleanup, maxnum, segsize)
            case None => !cleanup || Stock(g, c, maxnum) == 0
            case Some(g1) => Stock(g1, c, maxnum) + 1 >= Stock(g, c, maxnum)
  {
    FreeHead(g);
    hide AllocOk;
  }

  lemma FreeHead(g: Alloc)
    requires Ok(g)
    ensures g.freeHead == None <==> g.pools.free == []
    ensures g.freeHead.Some? ==> g.freeHead.value in g.m.segs
  {
    assert LinkAt(g.m.segs, g.pools.free, 0);
  }

  /** Refilling the reserve moves a segment, and takes none away. */
  lemma TakenStock(g: Alloc, c: int, idle: bool, maxnum: nat, segsize: nat)
    requires Ok(g) && 0 <= c < |g.ias|
    ensures Stock(Taken(g, c, idle, maxnum, segsize), c, maxnum) == Stock(g, c, maxnum)
  {
    FreeHead(g);
    hide AllocOk;
  }

  // ---- ialloc_init_allocator ----

  /** A core with a current segment and a reserve. */
  function WithCore(g: Alloc, segsize: nat): Alloc {
    var g1 := Obtained(g, segsize);
    var g2 := Obtained(g1, segsize);
    if NextId(g) in g2.m.segs && NextId(g1) in g2.m.segs then Joined(g2, NextId(g), NextId(g1)) else g
  }

  const NOTHING: Alloc := Alloc(Memory(map[], map[], map[]), [], Pools([], []), None, 0)
}
