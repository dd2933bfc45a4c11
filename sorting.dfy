/**
  sort.Ints: sorts a slice of ints into increasing order, in place. The
  specification SortSeq is insertion into a sorted sequence; the method
  SortInts sorts an array in place and is proved to produce SortSeq of
  the array's old contents.
*/
module Sorting {

  predicate Sorted(s: seq<int>)
  {
    forall i, j :: 0 <= i < j < |s| ==> s[i] <= s[j]
  }

  /** x inserted into s before the first element larger than it. */
  function Insert(x: int, s: seq<int>): (r: seq<int>)
    ensures |r| == |s| + 1
  {
    if s == [] || x <= s[0] then [x] + s
    else [s[0]] + Insert(x, s[1..])
  }

  /** Insertion into a sorted sequence keeps it sorted and adds exactly x. */
  lemma {:induction false} InsertSorted(x: int, s: seq<int>)
    requires Sorted(s)
    ensures Sorted(Insert(x, s))
    ensures multiset(Insert(x, s)) == multiset(s) + multiset{x}
  {
    if s == [] {
      assert Insert(x, s) == [x];
    } else if x <= s[0] {
      assert Insert(x, s) == [x] + s;
      SortedCons(x, s);
    } else {
      var rest := Insert(x, s[1..]);
      assert s == [s[0]] + s[1..];
      assert Sorted(s[1..]);
      InsertSorted(x, s[1..]);
      forall k | 0 <= k < |rest|
        ensures s[0] <= rest[k]
      {
        assert rest[k] in multiset(rest);
        if rest[k] != x {
          assert rest[k] in multiset(s[1..]);
        }
      }
      SortedCons(s[0], rest);
    }
  }

  lemma SortedCons(a: int, r: seq<int>)
    requires Sorted(r) && forall k :: 0 <= k < |r| ==> a <= r[k]
    ensures Sorted([a] + r)
  {
    var t := [a] + r;
    forall i, j | 0 <= i < j < |t|
      ensures t[i] <= t[j]
    {
      assert t[j] == r[j - 1];
      if i > 0 {
        assert t[i] == r[i - 1];
      }
    }
  }

  /** The increasing rearrangement of s: insertion sort, one element at a time. */
  function SortSeq(s: seq<int>): (r: seq<int>)
    ensures |r| == |s|
  {
    if s == [] then [] else Insert(s[0], SortSeq(s[1..]))
  }

  /** SortSeq(s) is sorted and holds the same elements as s. */
  lemma {:induction false} SortSeqSorted(s: seq<int>)
    ensures Sorted(SortSeq(s))
    ensures multiset(SortSeq(s)) == multiset(s)
  {
    if s != [] {
      SortSeqSorted(s[1..]);
      InsertSorted(s[0], SortSeq(s[1..]));
      assert s == [s[0]] + s[1..];
    }
  }

  /** Two sorted sequences with the same elements are equal. */
  lemma {:induction false} SortedUnique(a: seq<int>, b: seq<int>)
    requires Sorted(a) && Sorted(b) && multiset(a) == multiset(b)
    ensures a == b
  {
    if a != [] {
      assert |b| > 0 by { assert |a| == |multiset(a)| == |multiset(b)| == |b|; }
      assert a[0] == b[0] by {
        SortedHeadIsMin(a, b[0]);
        SortedHeadIsMin(b, a[0]);
      }
      MultisetTail(a);
      MultisetTail(b);
      SortedTail(a);
      SortedTail(b);
      SortedUnique(a[1..], b[1..]);
      SameHeadAndTail(a, b);
    }
  }

  lemma SameHeadAndTail(a: seq<int>, b: seq<int>)
    requires |a| > 0 && |b| > 0 && a[0] == b[0] && a[1..] == b[1..]
    ensures a == b
  {
    assert a == [a[0]] + a[1..] && b == [b[0]] + b[1..];
  }

  lemma SortedTail(s: seq<int>)
    requires Sorted(s) && |s| > 0
    ensures Sorted(s[1..])
  {
    assert forall i :: 0 <= i < |s| - 1 ==> s[1..][i] == s[i + 1];
  }

  lemma SortedHeadIsMin(s: seq<int>, x: int)
    requires Sorted(s) && x in multiset(s)
    ensures s[0] <= x
  {
    var i :| 0 <= i < |s| && s[i] == x;
  }

  lemma MultisetTail(s: seq<int>)
    requires |s| > 0
    ensures multiset(s[1..]) == multiset(s) - multiset{s[0]}
  {
    assert s == [s[0]] + s[1..];
  }

  function Sum(s: seq<int>): int
  {
    if s == [] then 0 else Sum(s[..|s| - 1]) + s[|s| - 1]
  }

  lemma {:induction false} SumCons(x: int, s: seq<int>)
    ensures Sum([x] + s) == x + Sum(s)
  {
    if s != [] {
      assert ([x] + s)[..|s|] == [x] + s[..|s| - 1];
      SumCons(x, s[..|s| - 1]);
    }
  }

  lemma {:induction false} SumInsert(x: int, s: seq<int>)
    ensures Sum(Insert(x, s)) == x + Sum(s)
  {
    if s == [] || x <= s[0] {
      SumCons(x, s);
    } else {
      SumInsert(x, s[1..]);
      SumCons(s[0], Insert(x, s[1..]));
      assert s == [s[0]] + s[1..];
      SumCons(s[0], s[1..]);
    }
  }

  /** Sorting does not change the sum. */
  lemma {:induction false} SumSortSeq(s: seq<int>)
    ensures Sum(SortSeq(s)) == Sum(s)
  {
    if s != [] {
      SumSortSeq(s[1..]);
      SumInsert(s[0], SortSeq(s[1..]));
      assert s == [s[0]] + s[1..];
      SumCons(s[0], s[1..]);
    }
  }

  /**
    sort.Ints, modelled by an in-place insertion sort. Go uses a different
    algorithm (pattern-defeating quicksort), but by SortedUnique every
    sorted rearrangement of the same elements is the same sequence, so the
    result does not depend on the algorithm.
  */
  method SortInts(a: array<int>)
    modifies a
    ensures a[..] == SortSeq(old(a[..]))
  {
    var i := 0;
    while i < a.Length
      invariant 0 <= i <= a.Length
      invariant Sorted(a[..i])
      invariant multiset(a[..]) == multiset(old(a[..]))
    {
      InsertLast(a, i);
      i := i + 1;
    }
    assert a[..a.Length] == a[..];
    SortSeqSorted(old(a[..]));
    SortedUnique(a[..], SortSeq(old(a[..])));
  }

  /** One pass of insertion sort: moves a[i] left into the sorted prefix a[..i]. */
  method InsertLast(a: array<int>, i: nat)
    requires i < a.Length && Sorted(a[..i])
    modifies a
    ensures Sorted(a[..i + 1])
    ensures multiset(a[..]) == multiset(old(a[..]))
  {
    var j := i;
    SinkStart(a[..], i);
    while j > 0 && a[j - 1] > a[j]
      invariant 0 <= j <= i
      invariant Sinking(a[..], i, j)
      invariant multiset(a[..]) == multiset(old(a[..]))
    {
      ghost var after := a[..][j - 1 := a[j]][j := a[j - 1]];
      SinkStep(a[..], i, j);
      a[j - 1], a[j] := a[j], a[j - 1];
      assert a[..] == after;
      j := j - 1;
    }
    SinkDone(a[..], i, j);
  }

  /**
    While element i sinks to position j, the prefix up to i is sorted apart
    from position j, and the sinking element is no larger than what follows it.
  */
  ghost predicate Sinking(s: seq<int>, i: nat, j: nat)
  {
    && j <= i < |s|
    && (forall p, q :: 0 <= p < q <= i && p != j && q != j ==> s[p] <= s[q])
    && (forall q :: j < q <= i ==> s[j] <= s[q])
  }

  /** Before the first swap, element i sits at the end of a sorted prefix. */
  lemma SinkStart(s: seq<int>, i: nat)
    requires i < |s| && Sorted(s[..i])
    ensures Sinking(s, i, i)
  {
    assert forall p :: 0 <= p < i ==> s[..i][p] == s[p];
  }

  /** Swapping s[j - 1] and s[j] moves the sinking element one place left. */
  lemma SinkStep(s: seq<int>, i: nat, j: nat)
    requires 0 < j && Sinking(s, i, j) && s[j - 1] > s[j]
    ensures Sinking(s[j - 1 := s[j]][j := s[j - 1]], i, j - 1)
    ensures multiset(s[j - 1 := s[j]][j := s[j - 1]]) == multiset(s)
  {
  }

  /** Where the sinking of element i stops, the prefix up to i is sorted. */
  lemma SinkDone(s: seq<int>, i: nat, j: nat)
    requires Sinking(s, i, j)
    requires j == 0 || s[j - 1] <= s[j]
    ensures Sorted(s[..i + 1])
  {
    forall p, q | 0 <= p < q <= i
      ensures s[p] <= s[q]
    {
      if q == j && p < j - 1 {
        assert s[p] <= s[j - 1];
      }
    }
    assert forall p :: 0 <= p <= i ==> s[..i + 1][p] == s[p];
  }
}
