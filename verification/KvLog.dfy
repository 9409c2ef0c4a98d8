/**
 The log-structured item memory of FlexKVS: segments filled front to back, their byte accounts, and
 what the account says about the items that are still referenced.
 */
module KvLog {
  import opened Basics
  import opened KvTable

  /** A segment header; `filler` is the length of the unusable tail once the segment is closed. */
  datatype Segment = Segment(
    size: nat, offset: nat, freed: nat, inactive: bool, cleaned: bool, filler: nat, next: Option<SegId>)

  /** Offsets of the items of a segment, in memory order. */
  type Log = seq<int>

  function ItemAt(heap: Heap, s: SegId, off: int): Option<Item> {
    if Addr(s, off) in heap then Some(heap[Addr(s, off)]) else None
  }

  function SizeAt(heap: Heap, s: SegId, off: int): nat {
    match ItemAt(heap, s, off) case None => 0 case Some(it) => TotalSize(it)
  }

  function LiveAt(heap: Heap, s: SegId, off: int): nat {
    match ItemAt(heap, s, off) case None => 0 case Some(it) => if it.refcount > 0 then TotalSize(it) else 0
  }

  /** Bytes of the items of the log that are still referenced. */
  function Live(heap: Heap, s: SegId, log: Log): nat {
    if log == [] then 0 else Live(heap, s, log[..|log| - 1]) + LiveAt(heap, s, log[|log| - 1])
  }

  /** Items lie end to end: each starts where the previous one ends, the last ends where the filler starts. */
  ghost predicate TileOk(heap: Heap, seg: Segment, s: SegId, log: Log, i: int) {
    0 <= i < |log| ==>
      && Addr(s, log[i]) in heap
      && (i == 0 ==> log[i] == 0)
      && log[i] + SizeAt(heap, s, log[i]) == (if i + 1 < |log| then log[i + 1] else seg.offset - seg.filler)
  }

  ghost predicate LogOk(heap: Heap, seg: Segment, s: SegId, log: Log) {
    && (forall i: int :: TileOk(heap, seg, s, log, i))
    && (log == [] ==> seg.offset == seg.filler)
    && seg.offset <= seg.size && seg.filler <= seg.offset
    && (seg.filler > 0 || seg.inactive ==> seg.offset == seg.size)
    && seg.freed + Live(heap, s, log) == seg.offset
  }

  // ---- positions ----

  lemma LogIncreases(heap: Heap, seg: Segment, s: SegId, log: Log, i: nat, j: nat)
    requires LogOk(heap, seg, s, log) && i < j < |log|
    ensures log[i] + ITEM_HEADER <= log[j]
  {
    assert TileOk(heap, seg, s, log, j - 1);
    if i < j - 1 { LogIncreases(heap, seg, s, log, i, j - 1); }
  }

  /** Every item lies wholly inside the used part of its segment. */
  lemma LogBounds(heap: Heap, seg: Segment, s: SegId, log: Log, i: nat)
    requires LogOk(heap, seg, s, log) && i < |log|
    ensures 0 <= log[i] && log[i] + SizeAt(heap, s, log[i]) <= seg.offset - seg.filler
    decreases |log| - i
  {
    assert TileOk(heap, seg, s, log, i) && TileOk(heap, seg, s, log, 0) && TileOk(heap, seg, s, log, |log| - 1);
    if i > 0 { LogIncreases(heap, seg, s, log, 0, i); }
    if i + 1 < |log| {
      assert TileOk(heap, seg, s, log, i + 1);
      LogBounds(heap, seg, s, log, i + 1);
    }
  }

  lemma LogNoDup(heap: Heap, seg: Segment, s: SegId, log: Log)
    requires LogOk(heap, seg, s, log)
    ensures NoDup(log)
  {
    forall i, j | 0 <= i < j < |log| ensures log[i] != log[j] { LogIncreases(heap, seg, s, log, i, j); }
  }

  // ---- the byte account ----

  lemma LiveFrame(heap: Heap, heap': Heap, s: SegId, log: Log)
    requires forall off :: off in log ==> LiveAt(heap', s, off) == LiveAt(heap, s, off)
    ensures Live(heap', s, log) == Live(heap, s, log)
  {
    if log != [] { LiveFrame(heap, heap', s, log[..|log| - 1]); }
  }

  /** Nothing but liveness and size of the segment's own items matters to its account and layout. */
  lemma LogFrame(heap: Heap, heap': Heap, seg: Segment, seg': Segment, s: SegId, log: Log)
    requires LogOk(heap, seg, s, log)
    requires forall off :: off in log ==>
               && (Addr(s, off) in heap ==> Addr(s, off) in heap')
               && SizeAt(heap', s, off) == SizeAt(heap, s, off) && LiveAt(heap', s, off) == LiveAt(heap, s, off)
    requires seg' == seg.(next := seg'.next, cleaned := seg'.cleaned)
    ensures LogOk(heap', seg', s, log)
  {
    LiveFrame(heap, heap', s, log);
    forall i: int ensures TileOk(heap', seg', s, log, i) { assert TileOk(heap, seg, s, log, i); }
  }

  /** When the last reference to an item goes, its bytes move from the live to the freed side. */
  lemma {:induction false} LiveKill(heap: Heap, heap': Heap, s: SegId, log: Log, off: int)
    requires NoDup(log) && off in log
    requires LiveAt(heap', s, off) == 0
    requires forall o :: o in log && o != off ==> LiveAt(heap', s, o) == LiveAt(heap, s, o)
    ensures Live(heap', s, log) + LiveAt(heap, s, off) == Live(heap, s, log)
  {
    var init, last := log[..|log| - 1], log[|log| - 1];
    if last == off {
      assert off !in init;
      LiveFrame(heap, heap', s, init);
    } else {
      assert off in init;
      LiveKill(heap, heap', s, init, off);
    }
  }

  lemma FreeOk(heap: Heap, heap': Heap, seg: Segment, s: SegId, log: Log, off: int)
    requires LogOk(heap, seg, s, log) && off in log && Addr(s, off) in heap && heap[Addr(s, off)].refcount > 0
    requires Addr(s, off) in heap' && heap'[Addr(s, off)].refcount == 0
    requires forall o :: o in log ==>
               && Addr(s, o) in heap'
               && SizeAt(heap', s, o) == SizeAt(heap, s, o) && (o != off ==> LiveAt(heap', s, o) == LiveAt(heap, s, o))
    ensures LogOk(heap', seg.(freed := seg.freed + TotalSize(heap[Addr(s, off)])), s, log)
  {
    LogNoDup(heap, seg, s, log);
    LiveKill(heap, heap', s, log, off);
    var seg' := seg.(freed := seg.freed + TotalSize(heap[Addr(s, off)]));
    forall i: int ensures TileOk(heap', seg', s, log, i) { assert TileOk(heap, seg, s, log, i); }
  }

  /** segment_item_alloc with room: the item goes at the end of the log. */
  lemma AppendOk(heap: Heap, heap': Heap, seg: Segment, s: SegId, log: Log, total: nat)
    requires LogOk(heap, seg, s, log) && seg.filler == 0 && seg.offset + total <= seg.size && !seg.inactive
    requires Addr(s, seg.offset) in heap' && TotalSize(heap'[Addr(s, seg.offset)]) == total
    requires heap'[Addr(s, seg.offset)].refcount > 0
    requires forall off :: off in log ==>
               && Addr(s, off) in heap'
               && SizeAt(heap', s, off) == SizeAt(heap, s, off) && LiveAt(heap', s, off) == LiveAt(heap, s, off)
    ensures LogOk(heap', seg.(offset := seg.offset + total), s, log + [seg.offset])
  {
    var seg', log' := seg.(offset := seg.offset + total), log + [seg.offset];
    LiveFrame(heap, heap', s, log);
    assert log'[..|log'| - 1] == log;
    forall i: int ensures TileOk(heap', seg', s, log', i) {
      assert TileOk(heap, seg, s, log, i);
      if 0 <= i < |log| { assert log'[i] == log[i]; }
    }
  }

  /** segment_item_alloc without room: the tail is counted as freed, once. */
  lemma CloseOk(heap: Heap, seg: Segment, s: SegId, log: Log)
    requires LogOk(heap, seg, s, log) && seg.filler == 0 && seg.offset < seg.size && !seg.inactive
    ensures LogOk(heap, Closed(seg), s, log) && Closed(seg).offset == seg.size
  {
    forall i: int ensures TileOk(heap, Closed(seg), s, log, i) { assert TileOk(heap, seg, s, log, i); }
  }

  function Closed(seg: Segment): Segment
    requires seg.offset <= seg.size
  {
    var avail := seg.size - seg.offset;
    seg.(freed := seg.freed + avail, offset := seg.size, filler := avail)
  }

  // ---- what the account decides ----

  lemma LiveMember(heap: Heap, s: SegId, log: Log, off: int)
    requires off in log
    ensures LiveAt(heap, s, off) <= Live(heap, s, log)
  {
    var init := log[..|log| - 1];
    if log[|log| - 1] != off {
      assert off in init;
      LiveMember(heap, s, init, off);
    }
  }

  predicate Unreferenced(heap: Heap, a: Addr) { a in heap && heap[a].refcount == 0 }

  /** A closed segment's freed bytes reach its size exactly when none of its items is referenced any more. */
  lemma {:induction false} RecyclableIffDead(heap: Heap, seg: Segment, s: SegId, log: Log)
    requires LogOk(heap, seg, s, log) && seg.inactive
    ensures seg.freed == seg.size <==> forall off :: off in log ==> Unreferenced(heap, Addr(s, off))
  {
    forall off | off in log ensures Addr(s, off) in heap {
      assert TileOk(heap, seg, s, log, IndexOf(log, off));
    }
    if seg.freed == seg.size {
      forall off | off in log ensures Unreferenced(heap, Addr(s, off)) { LiveMember(heap, s, log, off); }
    }
    if forall off :: off in log ==> Unreferenced(heap, Addr(s, off)) {
      forall off | off in log ensures LiveAt(heap, s, off) == 0 { assert Unreferenced(heap, Addr(s, off)); }
      AllDead(heap, s, log);
    }
  }

  lemma AllDead(heap: Heap, s: SegId, log: Log)
    requires forall off :: off in log ==> LiveAt(heap, s, off) == 0
    ensures Live(heap, s, log) == 0
  {
    if log != [] { AllDead(heap, s, log[..|log| - 1]); }
  }

  // ---- the log scan over the tail filler ----

  /** The key length written into the filler's header: 16 bits of the tail's length. */
  function FillerKeyLen(filler: nat): nat
    requires filler >= ITEM_HEADER
  {
    (filler - ITEM_HEADER) % 0x10000
  }

  /** The filler is too short to have a header, or its length fits the header's key length field. */
  predicate FillerFits(filler: nat) {
    filler < ITEM_HEADER || filler - ITEM_HEADER < 0x10000
  }

  lemma FillerScan(filler: nat)
    requires filler >= ITEM_HEADER
    ensures ITEM_HEADER + FillerKeyLen(filler) == filler <==> FillerFits(filler)
  {
  }
}
