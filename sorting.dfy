/** Ordering facts about integer sequences, and the library sort that
    MultiSeries.Rows calls (Go's sort.Ints), modelled by insertion sort. */
module Sorting {

  /** Non-decreasing order: what sort.Ints promises of its result. */
  predicate Sorted(s: seq<int>)
  {
    forall a, b :: 0 <= a < b < |s| ==> s[a] <= s[b]
  }

  /** Strictly increasing order: a sorted sequence without repeats. */
  predicate Increasing(s: seq<int>)
  {
    forall a, b :: 0 <= a < b < |s| ==> s[a] < s[b]
  }

  /** No value occurs twice. */
  predicate Distinct(s: seq<int>)
  {
    forall a, b :: 0 <= a < b < |s| ==> s[a] != s[b]
  }

  /** Inserts x into a sorted sequence, keeping it sorted. */
  function Insert(s: seq<int>, x: int): (r: seq<int>)
    requires Sorted(s)
    ensures |r| == |s| + 1
    ensures r[0] == x || (s != [] && r[0] == s[0])
    ensures Sorted(r)
    ensures multiset(r) == multiset(s) + multiset{x}
  {
    if s == [] || x <= s[0] then
      [x] + s
    else
      assert s == [s[0]] + s[1..];
      [s[0]] + Insert(s[1..], x)
  }

  /** sort.Ints: returns the input values in non-decreasing order. */
  method SortInts(xs: seq<int>) returns (r: seq<int>)
    ensures Sorted(r)
    ensures multiset(r) == multiset(xs)
  {
    r := [];
    var i := 0;
    while i < |xs|
      invariant 0 <= i <= |xs|
      invariant Sorted(r)
      invariant multiset(r) == multiset(xs[..i])
    {
      assert xs[..i + 1] == xs[..i] + [xs[i]];
      r := Insert(r, xs[i]);
      i := i + 1;
    }
    assert xs[..i] == xs;
  }

  /** A sequence is free of repeats exactly when every value occurs at most once in its multiset. */
  lemma {:induction false} DistinctIffSingleOccurrences(s: seq<int>)
    ensures Distinct(s) <==> forall v :: multiset(s)[v] <= 1
  {
    if s != [] {
      var t := s[1..];
      assert s == [s[0]] + t;
      DistinctIffSingleOccurrences(t);
      if Distinct(s) {
        assert forall j :: 0 <= j < |t| ==> t[j] == s[j + 1];
        assert s[0] !in t;
        assert Distinct(t) by {
          forall a, b | 0 <= a < b < |t| ensures t[a] != t[b] {
            assert t[a] == s[a + 1] && t[b] == s[b + 1];
          }
        }
      } else {
        var a, b :| 0 <= a < b < |s| && s[a] == s[b];
        if a == 0 {
          assert s[b] in t by { assert t[b - 1] == s[b]; }
          assert multiset(s)[s[0]] == 1 + multiset(t)[s[0]];
        } else {
          assert t[a - 1] == t[b - 1];
          assert !Distinct(t);
          var v :| multiset(t)[v] > 1;
          assert multiset(s)[v] >= multiset(t)[v];
        }
      }
    }
  }

  /** Reordering a repeat-free sequence keeps it repeat-free. */
  lemma PermutationKeepsDistinct(s: seq<int>, t: seq<int>)
    requires multiset(s) == multiset(t)
    requires Distinct(s)
    ensures Distinct(t)
  {
    DistinctIffSingleOccurrences(s);
    DistinctIffSingleOccurrences(t);
  }

  /** Two strictly increasing sequences holding the same values are equal. */
  lemma {:induction false} IncreasingUnique(a: seq<int>, b: seq<int>)
    requires Increasing(a) && Increasing(b)
    requires forall x :: x in a <==> x in b
    ensures a == b
  {
    if a != [] {
      assert a[0] in a;
    }
    if b != [] {
      assert b[0] in b;
    }
    if a != [] && b != [] {
      var i :| 0 <= i < |a| && a[i] == b[0];
      var j :| 0 <= j < |b| && b[j] == a[0];
      assert a[0] == b[0];
      forall x ensures x in a[1..] <==> x in b[1..] {
        if x in a[1..] {
          assert x in b && x != b[0];
        }
        if x in b[1..] {
          assert x in a && x != a[0];
        }
      }
      IncreasingUnique(a[1..], b[1..]);
      assert a == [a[0]] + a[1..] && b == [b[0]] + b[1..];
    }
  }

  /** A repeat-free sequence has as many distinct values as elements. */
  lemma {:induction false} DistinctCardinality(s: seq<int>)
    requires Distinct(s)
    ensures |set x | x in s| == |s|
  {
    if s != [] {
      var init := s[..|s| - 1];
      assert Distinct(init);
      DistinctCardinality(init);
      assert (set x | x in s) == (set x | x in init) + {s[|s| - 1]};
      assert s[|s| - 1] !in init;
    }
  }
}
