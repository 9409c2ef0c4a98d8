/**
 The single-producer single-consumer ring: first as a data structure used by one thread, then as a
 protocol in which producer and consumer interleave between any two shared accesses.
 */
module SpscRing {
  import opened Basics

  function Next(i: nat, cap: nat): nat { if i + 1 == cap then 0 else i + 1 }

  /** Slot of the k-th entry counted from `tail`. */
  function Slot(tail: nat, k: nat, cap: nat): int {
    if tail + k < cap then tail + k else tail + k - cap
  }

  /** Number of entries held, from the two indices. */
  function Held(head: nat, tail: nat, cap: nat): int {
    if head >= tail then head - tail else cap + head - tail
  }

  /** The entries of a ring, oldest first. */
  function Entries<T>(buffer: seq<T>, head: nat, tail: nat): (q: seq<T>)
    requires head < |buffer| && tail < |buffer|
    ensures |q| == Held(head, tail, |buffer|)
  {
    seq(Held(head, tail, |buffer|), k requires 0 <= k < Held(head, tail, |buffer|) => buffer[Slot(tail, k, |buffer|)])
  }

  /** Unguarded put on values: append, dropping the oldest entry when capacity - 1 are held. */
  function PutDropping<T>(q: seq<T>, x: T, cap: nat): seq<T> {
    (if q != [] && |q| == cap - 1 then q[1..] else q) + [x]
  }

  // ---- one thread ----

  class RingBuf<T> {
    const buffer: array<T>
    var head: nat
    var tail: nat

    ghost predicate Valid()
      reads this
    {
      2 <= buffer.Length && head < buffer.Length && tail < buffer.Length
    }

    ghost function Contents(): seq<T>
      reads this, buffer
      requires Valid()
    {
      Entries(buffer[..], head, tail)
    }

    /** `ring_buf_init`. A ring of capacity one would be full and empty at once. */
    constructor (storage: array<T>)
      requires storage.Length >= 2
      ensures Valid() && buffer == storage && Contents() == []
    {
      buffer := storage;
      head, tail := 0, 0;
    }

    method Full() returns (full: bool)
      requires Valid()
      ensures full <==> |Contents()| == buffer.Length - 1
    {
      full := Next(head, buffer.Length) == tail;
    }

    method Empty() returns (empty: bool)
      requires Valid()
      ensures empty <==> Contents() == []
    {
      var full := Full();
      empty := !full && head == tail;
    }

    /** `ring_buf_size` reports the capacity when the ring is full, although it then holds one entry less. */
    method Size() returns (size: nat)
      requires Valid()
      ensures size == |Contents()| <==> |Contents()| != buffer.Length - 1
      ensures |Contents()| == buffer.Length - 1 ==> size == |Contents()| + 1
    {
      size := buffer.Length;
      var full := Full();
      if !full {
        size := if head >= tail then head - tail else buffer.Length + head - tail;
      }
    }

    /** `ring_buf_put` */
    method Put(x: T)
      requires Valid()
      modifies this, buffer
      ensures Valid() && Contents() == PutDropping(old(Contents()), x, buffer.Length)
    {
      ghost var q := Contents();
      buffer[head] := x;
      var full := Full();
      if full {
        tail := Next(tail, buffer.Length);
      }
      head := Next(head, buffer.Length);
    }

    /** `ring_buf_put2`: refuses instead of dropping. */
    method Put2(x: T) returns (stored: bool)
      requires Valid()
      modifies this, buffer
      ensures Valid() && (stored <==> |old(Contents())| < buffer.Length - 1)
      ensures Contents() == if stored then old(Contents()) + [x] else old(Contents())
    {
      stored := false;
      var full := Full();
      if !full {
        Put(x);
        stored := true;
      }
    }

    /** `ring_buf_get`: the oldest entry, or NULL. */
    method Get() returns (entry: Option<T>)
      requires Valid()
      modifies this
      ensures Valid()
      ensures entry == None <==> old(Contents()) == []
      ensures entry == None ==> Contents() == []
      ensures entry.Some? ==> entry.value == old(Contents())[0] && Contents() == old(Contents())[1..]
    {
      entry := None;
      var empty := Empty();
      if !empty {
        entry := Some(buffer[tail]);
        tail := Next(tail, buffer.Length);
      }
    }
  }

  // ---- producer and consumer interleaved ----

  /** Where the producer is: checking for room, writing the slot, advancing. */
  datatype Producer<T> =
    | Resting
    | Checking(x: T)      // about to read `tail` to see whether the ring is full
    | Writing(x: T)       // about to write the slot at `head`
    | Advancing(x: T)     // in advance_pointer, about to read `tail` again
    | Dropping(x: T)      // about to move `tail`: the branch for a full ring
    | Publishing(x: T)    // about to store the new `head`

  /** Where the consumer is: two reads of `head`, a read of the slot, the store of `tail`. */
  datatype Consumer<T> =
    | Waiting
    | Looking             // ring_buf_full's read of `head`
    | Comparing           // ring_buf_empty's own read of `head`
    | Reading             // about to read the slot at `tail`
    | Retreating(x: T)    // about to store the new `tail`

  /** The shared memory and the two threads, with what has been published and what has been taken so far. */
  datatype Shared<T> = Shared(
    buffer: seq<T>, head: nat, tail: nat,
    producer: Producer<T>, consumer: Consumer<T>,
    pushed: seq<T>, taken: seq<T>)

  datatype Move<T> = BeginPut(x: T) | GiveUp | ProducerStep | BeginGet | ConsumerStep

  function Start<T>(storage: seq<T>): Shared<T> {
    Shared(storage, 0, 0, Resting, Waiting, [], [])
  }

  /** One shared access, or one local decision, of one of the threads. */
  function Step<T>(s: Shared<T>, m: Move<T>): Shared<T> {
    var cap := |s.buffer|;
    match m
    case BeginPut(x) => if s.producer.Resting? then s.(producer := Checking(x)) else s
    case GiveUp => if s.producer.Checking? then s.(producer := Resting) else s
    case ProducerStep =>
      (match s.producer
       case Resting => s
       case Checking(x) => if Next(s.head, cap) == s.tail then s else s.(producer := Writing(x))
       case Writing(x) =>
         if s.head < cap then s.(buffer := s.buffer[s.head := x], producer := Advancing(x)) else s
       case Advancing(x) =>
         s.(producer := if Next(s.head, cap) == s.tail then Dropping(x) else Publishing(x))
       case Dropping(x) => s.(tail := Next(s.tail, cap), producer := Publishing(x))
       case Publishing(x) => s.(head := Next(s.head, cap), producer := Resting, pushed := s.pushed + [x]))
    case BeginGet => if s.consumer.Waiting? then s.(consumer := Looking) else s
    case ConsumerStep =>
      (match s.consumer
       case Waiting => s
       case Looking => s.(consumer := if Next(s.head, cap) == s.tail then Reading else Comparing)
       case Comparing => s.(consumer := if s.head == s.tail then Waiting else Reading)
       case Reading => if s.tail < cap then s.(consumer := Retreating(s.buffer[s.tail])) else s
       case Retreating(x) => s.(tail := Next(s.tail, cap), consumer := Waiting, taken := s.taken + [x]))
  }

  function Run<T>(s: Shared<T>, moves: seq<Move<T>>): Shared<T>
    decreases |moves|
  {
    if moves == [] then s else Run(Step(s, moves[0]), moves[1..])
  }

  ghost predicate SlotOk<T>(s: Shared<T>, k: int) {
    0 <= k < |s.pushed| - |s.taken| ==>
      && 0 <= Slot(s.tail, k, |s.buffer|) < |s.buffer|
      && s.buffer[Slot(s.tail, k, |s.buffer|)] == s.pushed[|s.taken| + k]
  }

  ghost predicate Inv<T>(s: Shared<T>) {
    var cap, held := |s.buffer|, |s.pushed| - |s.taken|;
    && 2 <= cap && s.head < cap && s.tail < cap
    && 0 <= held < cap && s.head == Slot(s.tail, held, cap)
    && s.taken <= s.pushed
    && (forall k :: SlotOk(s, k))
    && !s.producer.Dropping?
    && (s.producer.Writing? || s.producer.Advancing? || s.producer.Publishing? ==> held < cap - 1)
    && (s.producer.Advancing? || s.producer.Publishing? ==> s.buffer[s.head] == s.producer.x)
    && (s.consumer.Reading? ==> held > 0)
    && (s.consumer.Retreating? ==> held > 0 && s.consumer.x == s.pushed[|s.taken|])
  }

  lemma ProducerKeeps<T>(s: Shared<T>)
    requires Inv(s)
    ensures Inv(Step(s, ProducerStep))
    ensures Step(s, ProducerStep).tail == s.tail
  {
    var s' := Step(s, ProducerStep);
    forall k ensures SlotOk(s', k) { assert SlotOk(s, k); }
  }

  lemma ConsumerKeeps<T>(s: Shared<T>)
    requires Inv(s)
    ensures Inv(Step(s, ConsumerStep))
    ensures Step(s, ConsumerStep).head == s.head && Step(s, ConsumerStep).buffer == s.buffer
  {
    var s' := Step(s, ConsumerStep);
    assert SlotOk(s, 0);
    forall k ensures SlotOk(s', k) { assert SlotOk(s, k) && SlotOk(s, k + 1); }
  }

  lemma StepKeeps<T>(s: Shared<T>, m: Move<T>)
    requires Inv(s)
    ensures Inv(Step(s, m)) && |Step(s, m).buffer| == |s.buffer|
  {
    match m
    case ProducerStep => ProducerKeeps(s);
    case ConsumerStep => ConsumerKeeps(s);
    case _ =>
      var s' := Step(s, m);
      forall k ensures SlotOk(s', k) { assert SlotOk(s, k); }
  }

  lemma {:induction false} RunKeeps<T>(s: Shared<T>, moves: seq<Move<T>>)
    requires Inv(s)
    ensures Inv(Run(s, moves)) && |Run(s, moves).buffer| == |s.buffer|
    decreases |moves|
  {
    if moves != [] {
      StepKeeps(s, moves[0]);
      RunKeeps(Step(s, moves[0]), moves[1..]);
    }
  }

  /**
   Under every interleaving what the producer has published is what the consumer has taken followed
   by what the ring holds, in order; and the producer never moves `tail`.
   */
  lemma DeliversInOrder<T>(storage: seq<T>, moves: seq<Move<T>>)
    requires |storage| >= 2
    ensures var s := Run(Start(storage), moves);
            && |s.buffer| == |storage| && s.head < |storage| && s.tail < |storage|
            && s.pushed == s.taken + Entries(s.buffer, s.head, s.tail)
            && !s.producer.Dropping? && Step(s, ProducerStep).tail == s.tail
  {
    RunKeeps(Start(storage), moves);
    var s := Run(Start(storage), moves);
    hide Run, Step;
    ProducerKeeps(s);
    forall k | 0 <= k < |s.pushed| - |s.taken|
      ensures Entries(s.buffer, s.head, s.tail)[k] == s.pushed[|s.taken| + k]
    {
      assert SlotOk(s, k);
    }
  }
}
