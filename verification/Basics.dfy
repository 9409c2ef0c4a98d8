/** Names of pages, options, and duplicate-free sequences: the value a FIFO list, a ring or a chain denotes. */
module Basics {

  /** The name of a page structure, and a virtual address. */
  type PageId = nat
  type Address = nat

  datatype Option<+T> = None | Some(value: T)

  predicate NoDup<T(==)>(s: seq<T>) {
    forall i, j :: 0 <= i < j < |s| ==> s[i] != s[j]
  }

  /** Position of the first occurrence of x. */
  function IndexOf<T(==)>(s: seq<T>, x: T): (i: nat)
    requires x in s
    ensures i < |s| && s[i] == x && x !in s[..i]
  {
    if s[0] == x then 0 else 1 + IndexOf(s[1..], x)
  }

  /** The sequence s with its first occurrence of x taken out. */
  function Without<T(==)>(s: seq<T>, x: T): seq<T> {
    if x !in s then s
    else if s[0] == x then s[1..]
    else [s[0]] + Without(s[1..], x)
  }

  /** The subsequence of s on which keep holds, in order. */
  function Filter<T(!new)>(s: seq<T>, keep: T -> bool): (r: seq<T>)
    ensures forall x :: x in r <==> x in s && keep(x)
  {
    if s == [] then []
    else if keep(s[0]) then [s[0]] + Filter(s[1..], keep)
    else Filter(s[1..], keep)
  }

  lemma {:induction false} WithoutSlices<T>(s: seq<T>, x: T)
    requires x in s
    ensures Without(s, x) == s[..IndexOf(s, x)] + s[IndexOf(s, x) + 1..]
  {
    if s[0] != x {
      WithoutSlices(s[1..], x);
      ConsSlices(s, IndexOf(s[1..], x));
    }
  }

  lemma ConsSlices<T>(s: seq<T>, i: nat)
    requires i + 1 < |s|
    ensures [s[0]] + (s[1..][..i] + s[1..][i + 1..]) == s[..1 + i] + s[1 + i + 1..]
  {
  }

  lemma NoDupIndex<T>(s: seq<T>, i: nat)
    requires NoDup(s) && i < |s|
    ensures IndexOf(s, s[i]) == i
  {
  }

  lemma ConsFacts<T>(x: T, s: seq<T>)
    requires NoDup(s) && x !in s
    ensures NoDup([x] + s)
    ensures forall y :: y in [x] + s <==> y == x || y in s
  {
  }

  lemma WithoutFacts<T>(s: seq<T>, x: T)
    requires NoDup(s) && x in s
    ensures NoDup(Without(s, x))
    ensures |Without(s, x)| == |s| - 1
    ensures forall y :: y in Without(s, x) <==> y in s && y != x
  {
    var i := IndexOf(s, x);
    var r := Without(s, x);
    WithoutSlices(s, x);
    assert forall k :: 0 <= k < |r| ==> r[k] == s[if k < i then k else k + 1];
    forall y | y in s && y != x ensures y in r {
      var k := IndexOf(s, y);
      assert r[if k < i then k else k - 1] == y;
    }
  }

  lemma WithoutAt<T>(s: seq<T>, i: nat)
    requires NoDup(s) && i < |s|
    ensures Without(s, s[i]) == s[..i] + s[i + 1..]
  {
    NoDupIndex(s, i);
    WithoutSlices(s, s[i]);
  }

  lemma FilterConcat<T(!new)>(a: seq<T>, b: seq<T>, keep: T -> bool)
    ensures Filter(a + b, keep) == Filter(a, keep) + Filter(b, keep)
  {
    if a == [] {
      assert a + b == b;
    } else {
      assert (a + b)[1..] == a[1..] + b;
      FilterConcat(a[1..], b, keep);
    }
  }

  /** Elements of s, as a set; a duplicate-free sequence has as many. */
  function Elems<T(==)>(s: seq<T>): (r: set<T>) {
    set x | x in s
  }

  lemma NoDupSize<T>(s: seq<T>)
    requires NoDup(s)
    ensures |Elems(s)| == |s|
  {
    if s != [] {
      NoDupSize(s[1..]);
      assert Elems(s) == {s[0]} + Elems(s[1..]);
    }
  }

  /** A duplicate-free sequence drawn from a finite set is no longer than the set is large. */
  lemma NoDupWithin<T>(s: seq<T>, bound: set<T>)
    requires NoDup(s) && forall x :: x in s ==> x in bound
    ensures |s| <= |bound|
  {
    NoDupSize(s);
    SubsetSize(Elems(s), bound);
  }

  lemma SubsetSize<T>(a: set<T>, b: set<T>)
    requires a <= b
    ensures |a| <= |b|
  {
    if a != {} {
      var x :| x in a;
      SubsetSize(a - {x}, b - {x});
    }
  }
}
