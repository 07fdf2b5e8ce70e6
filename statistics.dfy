/** Sorting the collected latencies and selecting their median (myio.c:158-165). */
module Statistics {
  import opened Comparator

  predicate Sorted(s: seq<real>)
  {
    forall p, q :: 0 <= p < q < |s| ==> s[p] <= s[q]
  }

  /** Putting an element no greater than the head in front of a sorted sequence keeps it sorted. */
  lemma SortedCons(h: real, t: seq<real>)
    requires Sorted(t) && (t == [] || h <= t[0])
    ensures Sorted([h] + t)
  {
    var r := [h] + t;
    forall p, q | 0 <= p < q < |r| ensures r[p] <= r[q] {
      if p > 0 {
        assert r[p] == t[p - 1] && r[q] == t[q - 1];
      } else {
        assert r[q] == t[q - 1] && t[0] <= t[q - 1];
      }
    }
  }

  /**
   * The recursive step of `Insert`: when `x` goes after the head of `s`, the head
   * followed by the insertion into the tail is sorted and holds `s` and `x`.
   */
  lemma InsertAfterHead(x: real, s: seq<real>, t: seq<real>)
    requires Sorted(s) && s != [] && s[0] < x
    requires Sorted(t) && |t| == |s| && multiset(t) == multiset(s[1..]) + multiset{x}
    requires t[0] == if |s| == 1 || x <= s[1] then x else s[1]
    ensures Sorted([s[0]] + t)
    ensures multiset([s[0]] + t) == multiset(s) + multiset{x}
  {
    if |s| > 1 {
      assert s[0] <= s[1];
    }
    SortedCons(s[0], t);
    assert s == [s[0]] + s[1..];
    assert multiset(s) == multiset([s[0]]) + multiset(s[1..]);
    assert multiset([s[0]] + t) == multiset([s[0]]) + multiset(t);
  }

  /** Reference sort: inserts `x` into the sorted `s`, ordering by `Compare`. */
  function Insert(x: real, s: seq<real>): (r: seq<real>)
    requires Sorted(s)
    ensures Sorted(r)
    ensures multiset(r) == multiset(s) + multiset{x}
    ensures |r| == |s| + 1
    ensures r[0] == if s == [] || x <= s[0] then x else s[0]
  {
    if s == [] then [x]
    else if Compare(x, s[0]) <= 0 then
      SortedCons(x, s);
      [x] + s
    else
      var t := Insert(x, s[1..]);
      InsertAfterHead(x, s, t);
      [s[0]] + t
  }

  /** Reference sort: the ascending arrangement of `s` that qsort produces. */
  function SortedSeq(s: seq<real>): (r: seq<real>)
    ensures Sorted(r)
    ensures multiset(r) == multiset(s)
  {
    if s == [] then []
    else
      assert s == [s[0]] + s[1..];
      Insert(s[0], SortedSeq(s[1..]))
  }

  /** The head of a sorted sequence is at most every element of it. */
  lemma SortedHeadIsLeast(s: seq<real>, x: real)
    requires Sorted(s) && x in multiset(s)
    ensures s[0] <= x
  {
    var i :| 0 <= i < |s| && s[i] == x;
  }

  /** A sorted arrangement of a multiset is unique: any two agree element by element. */
  lemma {:induction false} SortedUnique(s: seq<real>, t: seq<real>)
    requires Sorted(s) && Sorted(t)
    requires multiset(s) == multiset(t)
    ensures s == t
  {
    assert |s| == |multiset(s)| == |multiset(t)| == |t|;
    if s != [] {
      SortedHeadIsLeast(s, t[0]);
      SortedHeadIsLeast(t, s[0]);
      assert s[0] == t[0];
      assert s == [s[0]] + s[1..];
      assert t == [t[0]] + t[1..];
      assert multiset(s[1..]) == multiset(s) - multiset{s[0]};
      assert multiset(t[1..]) == multiset(t) - multiset{t[0]};
      assert Sorted(s[1..]) && Sorted(t[1..]);
      SortedUnique(s[1..], t[1..]);
    }
  }

  /** Any sorted permutation of `s` is the reference sort of `s`. */
  lemma SortedPermutationIsSortedSeq(s: seq<real>, t: seq<real>)
    requires Sorted(t) && multiset(t) == multiset(s)
    ensures t == SortedSeq(s)
  {
    SortedUnique(t, SortedSeq(s));
  }

  /** Exchanges `a[i]` and `a[j]`, keeping the multiset of elements. */
  method Swap(a: array<real>, i: int, j: int)
    requires 0 <= i < a.Length && 0 <= j < a.Length
    modifies a
    ensures a[..] == old(a[..])[i := old(a[j])][j := old(a[i])]
    ensures multiset(a[..]) == multiset(old(a[..]))
  {
    a[i], a[j] := a[j], a[i];
  }

  /**
   * The sort of the latency array at myio.c:159, as an in-place insertion sort driven
   * by the same comparator that qsort is given.
   */
  method SortInPlace(a: array<real>)
    modifies a
    ensures Sorted(a[..])
    ensures multiset(a[..]) == multiset(old(a[..]))
    ensures a[..] == SortedSeq(old(a[..]))
  {
    var i := 0;
    while i < a.Length
      invariant 0 <= i <= a.Length
      invariant forall p, q :: 0 <= p < q < i ==> a[p] <= a[q]
      invariant multiset(a[..]) == multiset(old(a[..]))
    {
      var j := i;
      while j > 0 && Compare(a[j - 1], a[j]) > 0
        invariant 0 <= j <= i < a.Length
        invariant forall p, q :: 0 <= p < q <= i && q != j ==> a[p] <= a[q]
        invariant 0 < j < i ==> a[j - 1] <= a[j + 1]
        invariant multiset(a[..]) == multiset(old(a[..]))
      {
        Swap(a, j - 1, j);
        j := j - 1;
      }
      i := i + 1;
    }
    SortedPermutationIsSortedSeq(old(a[..]), a[..]);
  }

  /**
   * The median as myio.c:161-165 selects it from the sorted latencies: the middle
   * element for odd `n`, the mean of the two middle elements for even `n`.
   */
  function Median(s: seq<real>): (m: real)
    requires |s| > 0
    ensures Sorted(s) ==> s[0] <= m <= s[|s| - 1]
  {
    var n := |s|;
    if n % 2 == 0 then (s[n / 2 - 1] + s[n / 2]) / 2.0 else s[n / 2]
  }

  /** The selection of myio.c:160-165 on the sorted latency array. */
  method SelectMedian(a: array<real>) returns (m: real)
    requires a.Length > 0
    ensures m == Median(a[..])
  {
    var n := a.Length;
    if n % 2 == 0 {
      m := (a[n / 2 - 1] + a[n / 2]) / 2.0;
    } else {
      m := a[n / 2];
    }
  }

  /**
   * On sorted input the median splits the samples in halves: the first ceil(n/2)
   * are at most the median and the last ceil(n/2) are at least the median.
   */
  lemma MedianSplitsSamples(s: seq<real>)
    requires |s| > 0 && Sorted(s)
    ensures forall i :: 0 <= i < (|s| + 1) / 2 ==> s[i] <= Median(s)
    ensures forall i :: |s| / 2 <= i < |s| ==> Median(s) <= s[i]
  {
  }

  /** The median of a run's latencies depends only on their multiset, not on the order collected. */
  lemma MedianIgnoresOrder(s: seq<real>, t: seq<real>)
    requires |s| > 0 && multiset(s) == multiset(t)
    ensures |SortedSeq(t)| > 0
    ensures Median(SortedSeq(s)) == Median(SortedSeq(t))
  {
    SortedUnique(SortedSeq(s), SortedSeq(t));
    assert |SortedSeq(t)| == |multiset(t)| == |s|;
  }

  /** The median of the sorted samples is one of the samples or lies between two of them. */
  lemma MedianBetweenSamples(s: seq<real>)
    requires |s| > 0
    ensures |SortedSeq(s)| == |s|
    ensures exists i :: 0 <= i < |s| && s[i] <= Median(SortedSeq(s))
    ensures exists j :: 0 <= j < |s| && Median(SortedSeq(s)) <= s[j]
  {
    var t := SortedSeq(s);
    assert |t| == |multiset(t)| == |s|;
    assert t[0] in multiset(s);
    assert t[|t| - 1] in multiset(s);
    var i :| 0 <= i < |s| && s[i] == t[0];
    var j :| 0 <= j < |s| && s[j] == t[|t| - 1];
  }

  /** The two worked examples: [1,2,3] has median 2 and [1,2,3,4] has median 2.5. */
  lemma MedianExamples()
    ensures Median([1.0, 2.0, 3.0]) == 2.0
    ensures Median([1.0, 2.0, 3.0, 4.0]) == 2.5
  {
  }
}
