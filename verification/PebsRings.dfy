/** The request rings of the page manager are ring buffers: what the manager does to a sequence, the buffer does. */
module PebsRings {
  import opened Basics
  import opened PebsState
  import opened PebsSteps
  import SpscRing

  lemma RingPutIsPut(r: seq<PageId>, p: PageId)
    ensures RingPut(r, p) == SpscRing.PutDropping(r, p, CAPACITY)
  {
  }

  /** `make_hot_request` and `make_cold_request`: one page of requests more. */
  method Request(ring: SpscRing.RingBuf<PageId>, p: PageId)
    requires ring.Valid() && ring.buffer.Length == CAPACITY
    modifies ring, ring.buffer
    ensures ring.Valid() && ring.Contents() == RingPut(old(ring.Contents()), p)
  {
    RingPutIsPut(ring.Contents(), p);
    ring.Put(p);
  }

  /** The head of the loops over a ring: the oldest request, if there is one. */
  method NextRequest(ring: SpscRing.RingBuf<PageId>) returns (p: Option<PageId>)
    requires ring.Valid()
    modifies ring
    ensures ring.Valid() && (p == None <==> old(ring.Contents()) == [])
    ensures p.Some? ==> p.value == old(ring.Contents())[0] && ring.Contents() == old(ring.Contents())[1..]
  {
    var empty := ring.Empty();
    if empty {
      p := None;
    } else {
      p := ring.Get();
    }
  }

  /** The guarded put of `pebs_remove_page`: it waits exactly when `Unmap` is not possible. */
  method FreeRequest(ring: SpscRing.RingBuf<PageId>, s: State, va: Address) returns (done: bool)
    requires ring.Valid() && ring.buffer.Length == CAPACITY && ring.Contents() == s.rings.free && va in s.index
    modifies ring, ring.buffer
    ensures ring.Valid() && (done <==> Unmap(s, va).Some?)
    ensures done ==> ring.Contents() == Unmap(s, va).value.rings.free
    ensures !done ==> ring.Contents() == s.rings.free
  {
    var full := ring.Full();
    done := !full;
    if done {
      RingPutIsPut(ring.Contents(), s.index[va]);
      ring.Put(s.index[va]);
    }
  }
}
