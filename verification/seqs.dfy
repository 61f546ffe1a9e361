/**
 * Sequence operations that the two scripts take from the JavaScript runtime:
 * Array.prototype.filter and Array.prototype.map, the order-preserving
 * subsequence relation that filtering establishes, and duplicate-freedom.
 */
module Seqs {

  /** Array.prototype.filter: the elements of s that satisfy p, in their original order. */
  function Filter<T>(s: seq<T>, p: T -> bool): (r: seq<T>)
    ensures |r| <= |s|
    ensures forall i :: 0 <= i < |r| ==> r[i] in s && p(r[i])
    ensures forall i :: 0 <= i < |s| && p(s[i]) ==> s[i] in r
  {
    if s == [] then [] else (if p(s[0]) then [s[0]] else []) + Filter(s[1..], p)
  }

  /** Array.prototype.map with a function that ignores the index argument. */
  function Map<T, U>(s: seq<T>, f: T -> U): (r: seq<U>)
    ensures |r| == |s|
    ensures forall i :: 0 <= i < |s| ==> r[i] == f(s[i])
  {
    if s == [] then [] else [f(s[0])] + Map(s[1..], f)
  }

  /** a can be obtained from b by deleting elements, without reordering the rest. */
  predicate IsSubsequence<T(==)>(a: seq<T>, b: seq<T>)
    decreases |b|
  {
    a == [] || (b != [] && ((a[0] == b[0] && IsSubsequence(a[1..], b[1..])) || IsSubsequence(a, b[1..])))
  }

  /** Filtering keeps the relative order of what it keeps. */
  lemma {:induction false} FilterIsSubsequence<T>(s: seq<T>, p: T -> bool)
    ensures IsSubsequence(Filter(s, p), s)
  {
    if s != [] {
      FilterIsSubsequence(s[1..], p);
      var r := Filter(s, p);
      if p(s[0]) {
        assert r[0] == s[0] && r[1..] == Filter(s[1..], p);
      } else {
        assert r == Filter(s[1..], p);
      }
    }
  }

  /** Filtering keeps every occurrence of a selected value and no occurrence of any other. */
  lemma {:induction false} FilterCounts<T>(s: seq<T>, p: T -> bool, x: T)
    ensures multiset(Filter(s, p))[x] == if p(x) then multiset(s)[x] else 0
  {
    if s != [] {
      FilterCounts(s[1..], p, x);
      var head := if p(s[0]) then [s[0]] else [];
      assert Filter(s, p) == head + Filter(s[1..], p);
      assert multiset(Filter(s, p)) == multiset(head) + multiset(Filter(s[1..], p));
      HeadTail(s);
      assert multiset(s) == multiset([s[0]]) + multiset(s[1..]);
    }
  }

  /** Filtering with a predicate that holds of every element returns the sequence itself. */
  lemma {:induction false} FilterKeepsAll<T>(s: seq<T>, p: T -> bool)
    requires forall x :: x in s ==> p(x)
    ensures Filter(s, p) == s
  {
    if s != [] {
      FilterKeepsAll(s[1..], p);
    }
  }

  /** Filtering a sequence extended at the end: what a loop that pushes while it scans computes. */
  lemma {:induction false} FilterSnoc<T>(s: seq<T>, x: T, p: T -> bool)
    ensures Filter(s + [x], p) == Filter(s, p) + (if p(x) then [x] else [])
  {
    if s == [] {
      assert s + [x] == [x];
    } else {
      FilterSnoc(s[1..], x, p);
      var head := if p(s[0]) then [s[0]] else [];
      var tail := if p(x) then [x] else [];
      assert (s + [x])[0] == s[0];
      assert (s + [x])[1..] == s[1..] + [x];
      assert Filter(s + [x], p) == head + Filter(s[1..] + [x], p);
      assert Filter(s, p) == head + Filter(s[1..], p);
      ConcatAssoc(head, Filter(s[1..], p), tail);
    }
  }

  /** Concatenation is associative. */
  lemma ConcatAssoc<T>(a: seq<T>, b: seq<T>, c: seq<T>)
    ensures a + (b + c) == (a + b) + c
  {
  }

  /** A non-empty sequence is its first element followed by the rest. */
  lemma HeadTail<T>(s: seq<T>)
    requires s != []
    ensures [s[0]] + s[1..] == s
  {
  }

  /** The first element and the tail of a concatenation whose left part is not empty. */
  lemma ConsConcat<T>(a: seq<T>, b: seq<T>)
    requires a != []
    ensures (a + b)[0] == a[0] && (a + b)[1..] == a[1..] + b
  {
  }

  /** A sequence of two or more elements is its first element, its middle and its last element. */
  lemma Ends<T>(s: seq<T>)
    requires |s| >= 2
    ensures s == [s[0]] + s[1..|s| - 1] + [s[|s| - 1]]
  {
  }

  /** The concatenation of f(x) for the elements x of s, in order. */
  function FlatMap<T, U>(s: seq<T>, f: T -> seq<U>): seq<U>
  {
    if s == [] then [] else FlatMap(s[..|s| - 1], f) + f(s[|s| - 1])
  }

  /** An element's image is part of the concatenation of all images. */
  lemma {:induction false} FlatMapHas<T, U>(s: seq<T>, f: T -> seq<U>, u: U, i: nat)
    requires i < |s| && u in f(s[i])
    ensures u in FlatMap(s, f)
  {
    var init := s[..|s| - 1];
    assert FlatMap(s, f) == FlatMap(init, f) + f(s[|s| - 1]);
    if i < |init| {
      assert init[i] == s[i];
      FlatMapHas(init, f, u, i);
    }
  }

  /** Whatever occurs in the concatenation comes from the image of some element. */
  lemma {:induction false} FlatMapWitness<T, U>(s: seq<T>, f: T -> seq<U>, u: U) returns (i: nat)
    requires u in FlatMap(s, f)
    ensures i < |s| && u in f(s[i])
  {
    assert s != [];
    var init := s[..|s| - 1];
    assert FlatMap(s, f) == FlatMap(init, f) + f(s[|s| - 1]);
    if u in f(s[|s| - 1]) {
      i := |s| - 1;
    } else {
      i := FlatMapWitness(init, f, u);
      assert init[i] == s[i];
    }
  }

  /** u occurs in the concatenation exactly when it occurs in the image of some element. */
  lemma FlatMapIff<T, U>(s: seq<T>, f: T -> seq<U>, u: U)
    ensures u in FlatMap(s, f) <==> exists i :: 0 <= i < |s| && u in f(s[i])
  {
    if u in FlatMap(s, f) {
      var i := FlatMapWitness(s, f, u);
    }
    if exists i :: 0 <= i < |s| && u in f(s[i]) {
      var i :| 0 <= i < |s| && u in f(s[i]);
      FlatMapHas(s, f, u, i);
    }
  }

  /** No value occurs twice. */
  predicate Distinct<T(==)>(s: seq<T>)
  {
    forall i, j :: 0 <= i < j < |s| ==> s[i] != s[j]
  }

  /** A duplicate-free sequence has as many elements as the set of its elements. */
  lemma {:induction false} DistinctCardinality<T>(s: seq<T>)
    requires Distinct(s)
    ensures |set x | x in s| == |s|
  {
    if s != [] {
      DistinctCardinality(s[1..]);
      var rest := set x | x in s[1..];
      assert s[0] !in rest;
      assert (set x | x in s) == {s[0]} + rest;
    }
  }
}
