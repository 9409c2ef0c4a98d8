/**
 The cleanup queue of an item allocator: a fixed array of item pointers in which an empty slot, not a
 count, tells the maintenance thread that there is room and the worker that there is nothing to do.
 */
module KvQueue {
  import opened Basics
  import opened KvTable

  /** The remainder of i by n, for the indices that occur. */
  function Wrap(i: int, n: int): int { if i >= n then i - n else i }

  /** The slot after slot i. */
  function Next(i: nat, n: nat): (r: nat)
    requires i < n
    ensures r < n
  {
    (i + 1) % n
  }

  lemma NextIs(i: nat, n: nat)
    requires i < n
    ensures Next(i, n) == Wrap(i + 1, n)
  {
    if i + 1 == n { assert n % n == 0; }
  }

  /** Slot k places after the head: the k-th queued item, or empty beyond the last. */
  ghost predicate SlotOk(slots: seq<Option<Addr>>, head: nat, contents: seq<Addr>, k: int) {
    0 <= k < |slots| && head < |slots| ==>
      slots[Wrap(head + k, |slots|)] == if k < |contents| then Some(contents[k]) else None
  }

  ghost predicate QueueOk(slots: seq<Option<Addr>>, head: nat, tail: nat, contents: seq<Addr>) {
    && head < |slots| && tail < |slots| && |contents| <= |slots| && tail == Wrap(head + |contents|, |slots|)
    && forall k: int :: SlotOk(slots, head, contents, k)
  }

  lemma PutOk(slots: seq<Option<Addr>>, head: nat, tail: nat, contents: seq<Addr>, it: Addr)
    requires QueueOk(slots, head, tail, contents)
    ensures slots[tail] == None <==> |contents| < |slots|
    ensures slots[tail] == None ==> QueueOk(slots[tail := Some(it)], head, Wrap(tail + 1, |slots|), contents + [it])
  {
    var n := |contents|;
    assert SlotOk(slots, head, contents, if n < |slots| then n else 0);
    var slots', contents' := slots[tail := Some(it)], contents + [it];
    forall k: int ensures slots[tail] == None ==> SlotOk(slots', head, contents', k) { assert SlotOk(slots, head, contents, k); }
  }

  lemma TakeOk(slots: seq<Option<Addr>>, head: nat, tail: nat, contents: seq<Addr>)
    requires QueueOk(slots, head, tail, contents)
    ensures slots[head] == if contents == [] then None else Some(contents[0])
    ensures contents != [] ==> QueueOk(slots[head := None], Wrap(head + 1, |slots|), tail, contents[1..])
  {
    assert SlotOk(slots, head, contents, 0);
    if contents != [] {
      var slots', head', contents' := slots[head := None], Wrap(head + 1, |slots|), contents[1..];
      forall k: int ensures SlotOk(slots', head', contents', k) { assert SlotOk(slots, head, contents, k + 1); }
    }
  }

  class CleanupQueue {
    const slots: array<Option<Addr>>
    var head: nat
    var tail: nat

    ghost var contents: seq<Addr>

    ghost predicate Valid()
      reads this, slots
    {
      QueueOk(slots[..], head, tail, contents)
    }

    constructor (size: nat)
      requires size > 0
      ensures Valid() && fresh(slots) && slots.Length == size && contents == []
    {
      slots := new Option<Addr>[size](_ => None);
      head, tail, contents := 0, 0, [];
    }

    /** The maintenance thread's side: room is an empty slot at the tail. */
    method TryPut(it: Addr) returns (ok: bool)
      requires Valid()
      modifies this`tail, this`contents, slots
      ensures Valid() && ok == (|old(contents)| < slots.Length)
      ensures contents == if ok then old(contents) + [it] else old(contents)
    {
      PutOk(slots[..], head, tail, contents, it);
      ghost var was := slots[..];
      ok := slots[tail] == None;
      if ok {
        slots[tail] := Some(it);
        assert slots[..] == was[tail := Some(it)];
        NextIs(tail, slots.Length);
        tail := Next(tail, slots.Length);
        contents := contents + [it];
      }
    }

    /** The worker's side: an empty slot at the head means nothing is queued. */
    method Take() returns (r: Option<Addr>)
      requires Valid()
      modifies this`head, this`contents, slots
      ensures Valid() && (r == None <==> old(contents) == [])
      ensures r.Some? ==> r.value == old(contents)[0] && contents == old(contents)[1..]
      ensures r == None ==> contents == old(contents)
    {
      TakeOk(slots[..], head, tail, contents);
      ghost var was := slots[..];
      r := slots[head];
      if r.Some? {
        slots[head] := None;
        assert slots[..] == was[head := None];
        NextIs(head, slots.Length);
        head := Next(head, slots.Length);
        contents := contents[1..];
      }
    }
  }
}
