/**
 The state of the HeMem page manager: the page structures, the six FIFO lists, the three rings,
 the clock, the two cooling sweeps and the va-to-page index, with the primitive operations on them.
 List contents run from `first` (index 0) to `last`; a page enters at the front and leaves at the back.
 */
module PebsState {
  import opened Basics
  import opened Bits

  const HOT_READ_THRESHOLD: nat := 8
  const PEBS_COOLING_THRESHOLD: nat := 24
  const HOT_RING_REQS_THRESHOLD: nat := 1024 * 1024
  const COLD_RING_REQS_THRESHOLD: nat := 128
  const CAPACITY: nat := 128 * 1024 * 1024
  const COOLING_PAGES: nat := 8192
  const PEBS_KSWAPD_MIGRATE_RATE: nat := 10 * 1024 * 1024 * 1024
  const BASEPAGE_SIZE: nat := 4 * 1024
  const HUGEPAGE_SIZE: nat := 2 * 1024 * 1024

  datatype ListId = DramHot | DramCold | DramFree | NvmHot | NvmCold | NvmFree {
    predicate InDram() { DramHot? || DramCold? || DramFree? }
    predicate IsHot() { DramHot? || NvmHot? }
    predicate IsFree() { DramFree? || NvmFree? }
  }

  function HotList(dram: bool): ListId { if dram then DramHot else NvmHot }
  function ColdList(dram: bool): ListId { if dram then DramCold else NvmCold }
  function FreeList(dram: bool): ListId { if dram then DramFree else NvmFree }

  /** Which perf buffer a sample came from. */
  datatype Source = DramRead | NvmRead

  /** A devdax frame: which device, and the offset into it. */
  datatype Frame = Frame(dram: bool, offset: nat)

  datatype Page = Page(
    va: Address,
    frame: Frame,
    present: bool,
    hot: bool,
    ringPresent: bool,
    localClock: nat,
    dramReads: nat,
    nvmReads: nat)

  const BLANK_PAGE := Page(0, Frame(false, 0), false, false, false, 0, 0, 0)

  type Pages = map<PageId, Page>

  /** Page structure p. The run invariant keeps every id in use among the keys. */
  function At(pages: Pages, p: PageId): Page { if p in pages then pages[p] else BLANK_PAGE }

  /** The six lists, and the `list` back pointer of every page that is on one. */
  datatype Fifos = Fifos(lists: map<ListId, seq<PageId>>, home: map<PageId, ListId>) {
    function L(l: ListId): seq<PageId> { if l in lists then lists[l] else [] }
  }

  datatype Rings = Rings(hot: seq<PageId>, cold: seq<PageId>, free: seq<PageId>)

  /** One tier's cooling sweep: the saved cursor, the page the round started from, and the request flag. */
  datatype Sweep = Sweep(cursor: Option<PageId>, start: Option<PageId>, need: bool)

  datatype State = State(
    pages: Pages,
    fifos: Fifos,
    rings: Rings,
    clock: nat,
    dramSweep: Sweep,
    nvmSweep: Sweep,
    index: map<Address, PageId>)
  {
    function SweepOf(dram: bool): Sweep { if dram then dramSweep else nvmSweep }
    function FreeFrames(): nat { |fifos.L(DramFree)| + |fifos.L(NvmFree)| }
  }

  /** What a counter is worth at clock `now`, once the ticks since `local` are applied. */
  function Decayed(count: nat, local: nat, now: nat): nat {
    if local <= now then Shr(count, now - local) else count
  }

  // ---- fifo.c on list values ----

  /** `enqueue_fifo` */
  function Enqueue(f: Fifos, l: ListId, p: PageId): Fifos {
    Fifos(f.lists[l := [p] + f.L(l)], f.home[p := l])
  }

  /** `page_list_remove_page` */
  function Remove(f: Fifos, l: ListId, p: PageId): Fifos {
    Fifos(f.lists[l := Without(f.L(l), p)], f.home - {p})
  }

  function Last(f: Fifos, l: ListId): PageId
    requires f.L(l) != []
  {
    f.L(l)[|f.L(l)| - 1]
  }

  /** `dequeue_fifo` on a list that is not empty */
  function Dequeue(f: Fifos, l: ListId): Fifos
    requires f.L(l) != []
  {
    Fifos(f.lists[l := f.L(l)[..|f.L(l)| - 1]], f.home - {Last(f, l)})
  }

  /** `next_page`: the page a sweep visits after cur, walking from `last` towards `first`. */
  function NextPage(xs: seq<PageId>, cur: Option<PageId>): Option<PageId> {
    match cur
    case None => if xs == [] then None else Some(xs[|xs| - 1])
    case Some(c) =>
      if c !in xs then None
      else var i := IndexOf(xs, c); if i == 0 then None else Some(xs[i - 1])
  }

  /** The `next` link of p: its neighbour on the `last` side. */
  function NextLink(xs: seq<PageId>, p: PageId): Option<PageId> {
    if p !in xs then None
    else var i := IndexOf(xs, p); if i + 1 == |xs| then None else Some(xs[i + 1])
  }

  // ---- spsc-ring.c on ring values ----

  /** Unguarded `ring_buf_put`: when capacity - 1 entries are held the oldest is dropped. */
  function RingPut(r: seq<PageId>, p: PageId): seq<PageId> {
    (if |r| == CAPACITY - 1 then r[1..] else r) + [p]
  }

  // ---- the list invariant ----

  /** List l does not repeat a page, and is the list its pages' back pointers name. */
  ghost predicate ListOk(f: Fifos, l: ListId) {
    NoDup(f.L(l)) && forall p :: p in f.L(l) ==> p in f.home && f.home[p] == l
  }

  ghost predicate HomeOk(f: Fifos, p: PageId) {
    p in f.home ==> p in f.L(f.home[p])
  }

  /** Every page with a back pointer is on exactly the list it names, once. */
  ghost predicate ListsOk(f: Fifos) {
    (forall l: ListId :: ListOk(f, l)) && (forall p: PageId :: HomeOk(f, p))
  }

  lemma EnqueueOk(f: Fifos, l: ListId, p: PageId)
    requires ListsOk(f) && p !in f.home
    ensures ListsOk(Enqueue(f, l, p))
  {
    hide NoDup;
    var f' := Enqueue(f, l, p);
    assert ListOk(f, l);
    ConsFacts(p, f.L(l));
    forall k: ListId ensures ListOk(f', k) { assert ListOk(f, k); }
    forall q: PageId ensures HomeOk(f', q) { assert HomeOk(f, q); }
  }

  lemma RemoveOk(f: Fifos, l: ListId, p: PageId)
    requires ListsOk(f) && p in f.home && f.home[p] == l
    ensures ListsOk(Remove(f, l, p))
  {
    hide NoDup, Without;
    var f' := Remove(f, l, p);
    assert ListOk(f, l) && HomeOk(f, p);
    WithoutFacts(f.L(l), p);
    forall k: ListId ensures ListOk(f', k) { assert ListOk(f, k); }
    forall q: PageId ensures HomeOk(f', q) { assert HomeOk(f, q); }
  }

  lemma DequeueIsRemove(f: Fifos, l: ListId)
    requires ListsOk(f) && f.L(l) != []
    ensures Last(f, l) in f.L(l) && Last(f, l) in f.home && f.home[Last(f, l)] == l
    ensures Dequeue(f, l) == Remove(f, l, Last(f, l))
  {
    hide NoDup, Without;
    assert ListOk(f, l);
    var xs := f.L(l);
    assert xs[|xs| - 1] in xs;
    WithoutAt(xs, |xs| - 1);
    assert xs[..|xs| - 1] + xs[|xs|..] == xs[..|xs| - 1];
  }

  lemma DequeueOk(f: Fifos, l: ListId)
    requires ListsOk(f) && f.L(l) != []
    ensures Last(f, l) in f.home && f.home[Last(f, l)] == l
    ensures ListsOk(Dequeue(f, l))
  {
    hide ListsOk;
    DequeueIsRemove(f, l);
    RemoveOk(f, l, Last(f, l));
  }
}
