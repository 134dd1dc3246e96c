/** Python's `sorted` on a list of amounts, as a functional insertion sort,
    with the facts the tax engine relies on: the result is ascending, is a
    permutation of the input, and is the ONLY ascending permutation of it. */
module Sorting {
  import opened Common

  predicate Sorted(s: seq<real>) {
    forall i, j :: 0 <= i < j < |s| ==> s[i] <= s[j]
  }

  /** Inserts `x` into an ascending sequence, keeping it ascending. */
  function Insert(x: real, s: seq<real>): (r: seq<real>)
    requires Sorted(s)
    ensures Sorted(r)
    ensures multiset(r) == multiset(s) + multiset{x}
    ensures |r| == |s| + 1
  {
    if s == [] then [x]
    else if x <= s[0] then [x] + s
    else
      SortedTail(s);
      var rest := Insert(x, s[1..]);
      assert s == [s[0]] + s[1..];
      assert multiset([s[0]] + rest) == multiset{s[0]} + multiset(rest);
      LowerBound(s[0], x, s[1..], rest);
      SortedCons(s[0], rest);
      [s[0]] + rest
  }

  /** Putting a lower bound in front of an ascending sequence keeps it ascending. */
  lemma SortedCons(lo: real, t: seq<real>)
    requires Sorted(t)
    requires forall k :: 0 <= k < |t| ==> lo <= t[k]
    ensures Sorted([lo] + t)
  {
  }

  /** Every element of `rest` is at least `lo` when it holds `x` and `t`'s elements, all at least `lo`. */
  lemma LowerBound(lo: real, x: real, t: seq<real>, rest: seq<real>)
    requires lo <= x
    requires forall k :: 0 <= k < |t| ==> lo <= t[k]
    requires multiset(rest) == multiset(t) + multiset{x}
    ensures forall k :: 0 <= k < |rest| ==> lo <= rest[k]
  {
    forall k | 0 <= k < |rest| ensures lo <= rest[k] {
      assert rest[k] in multiset(rest);
      if rest[k] != x {
        assert rest[k] in multiset(t);
        var m :| 0 <= m < |t| && t[m] == rest[k];
      }
    }
  }

  /** The ascending rearrangement of `s`. */
  function Sort(s: seq<real>): (r: seq<real>)
    ensures Sorted(r)
    ensures multiset(r) == multiset(s)
    ensures |r| == |s|
  {
    if s == [] then []
    else
      assert s == [s[0]] + s[1..];
      Insert(s[0], Sort(s[1..]))
  }

  /** Two ascending sequences with the same elements are equal. */
  lemma {:induction false} SortedUnique(a: seq<real>, b: seq<real>)
    requires Sorted(a) && Sorted(b)
    requires multiset(a) == multiset(b)
    ensures a == b
  {
    if a == [] {
      assert |multiset(b)| == 0;
    } else {
      assert b != [] by { assert a[0] in multiset(b); }
      LeastFirst(a, b);
      LeastFirst(b, a);
      SameTails(a, b);
      SortedTail(a);
      SortedTail(b);
      SortedUnique(a[1..], b[1..]);
      assert a == [a[0]] + a[1..] && b == [b[0]] + b[1..];
    }
  }

  lemma SortedTail(a: seq<real>)
    requires Sorted(a) && a != []
    ensures Sorted(a[1..])
  {
  }

  /** Removing equal heads from two permutations leaves two permutations. */
  lemma SameTails(a: seq<real>, b: seq<real>)
    requires a != [] && b != [] && a[0] == b[0]
    requires multiset(a) == multiset(b)
    ensures multiset(a[1..]) == multiset(b[1..])
  {
    assert a == [a[0]] + a[1..];
    assert b == [b[0]] + b[1..];
    assert multiset(a[1..]) == multiset(a) - multiset{a[0]};
    assert multiset(b[1..]) == multiset(b) - multiset{b[0]};
  }

  /** The head of an ascending sequence is below every element of a permutation of it. */
  lemma LeastFirst(a: seq<real>, b: seq<real>)
    requires Sorted(a) && b != []
    requires multiset(a) == multiset(b)
    ensures a != [] && a[0] <= b[0]
  {
    assert b[0] in multiset(a);
    var n :| 0 <= n < |a| && a[n] == b[0];
  }

  /** Sorting an ascending sequence leaves it unchanged. */
  lemma SortOfSorted(s: seq<real>)
    requires Sorted(s)
    ensures Sort(s) == s
  {
    SortedUnique(Sort(s), s);
  }

  /** Sorting forgets the order in which the elements were supplied. */
  lemma SortOrderIndependent(a: seq<real>, b: seq<real>)
    requires multiset(a) == multiset(b)
    ensures Sort(a) == Sort(b)
  {
    SortedUnique(Sort(a), Sort(b));
  }

  /** The largest element of a non-empty sequence. */
  function Largest(s: seq<real>): (m: real)
    requires s != []
    ensures m in s
    ensures forall k :: 0 <= k < |s| ==> s[k] <= m
  {
    if |s| == 1 then s[0] else Max(s[0], Largest(s[1..]))
  }

  /** The last element of an ascending permutation of `s` is `s`'s largest element. */
  lemma SortedLastIsMax(r: seq<real>, s: seq<real>)
    requires Sorted(r) && s != []
    requires multiset(r) == multiset(s)
    ensures |r| == |s| && r[|r| - 1] == Largest(s)
  {
    assert |r| == |multiset(r)| == |s|;
    assert r[|r| - 1] in multiset(s);
    var j :| 0 <= j < |s| && s[j] == r[|r| - 1];
    assert Largest(s) in multiset(r);
    var k :| 0 <= k < |r| && r[k] == Largest(s);
  }
}
