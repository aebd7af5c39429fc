/** The search durations of a run: sorted in place, then read at a percentile. */
module Durations {
  import opened Common
  import opened Division

  predicate Leq(a: int, b: int) { a <= b }

  // ----- The insertion sort -----

  predicate SortedTo(s: seq<int>, n: nat)
    requires n <= |s|
  {
    forall p, q :: 0 <= p < q < n ==> s[p] <= s[q]
  }

  /** Sorted through i, except that the element at j may still have to move down. */
  predicate Sinking(s: seq<int>, i: nat, j: nat)
    requires j <= i < |s|
  {
    forall p, q :: 0 <= p < q <= i && q != j ==> s[p] <= s[q]
  }

  function Swapped(s: seq<int>, j: nat): (r: seq<int>)
    requires 0 < j < |s|
    ensures |r| == |s| && multiset(r) == multiset(s)
  {
    s[j - 1 := s[j]][j := s[j - 1]]
  }

  method SortDurations(a: array<int>)
    modifies a
    ensures a[..] == SortBy(Leq, old(a[..]))
  {
    hide SortBy, SortedTo, Sinking, Swapped;
    ghost var was := a[..];
    if a.Length > 0 { FirstSorted(a[..]); }
    var i := 1;
    while i < a.Length
      invariant 1 <= i
      invariant multiset(a[..]) == multiset(was)
      invariant a.Length > 0 ==> i <= a.Length && SortedTo(a[..], i)
    {
      var j := i;
      StartSinking(a[..], i);
      while j > 0 && a[j] < a[j - 1]
        invariant 0 <= j <= i < a.Length
        invariant multiset(a[..]) == multiset(was)
        invariant Sinking(a[..], i, j)
      {
        SinkStep(a[..], i, j);
        Exchange(a, j);
        j := j - 1;
      }
      Sunk(a[..], i, j);
      i := i + 1;
    }
    WhollySorted(a[..]);
    IsSortBy(was, a[..]);
  }

  method Exchange(a: array<int>, j: nat)
    requires 0 < j < a.Length
    modifies a
    ensures a[..] == Swapped(old(a[..]), j)
  {
    a[j], a[j - 1] := a[j - 1], a[j];
  }

  lemma FirstSorted(s: seq<int>)
    requires s != []
    ensures SortedTo(s, 1)
  {
  }

  lemma StartSinking(s: seq<int>, i: nat)
    requires i < |s| && SortedTo(s, i)
    ensures Sinking(s, i, i)
  {
  }

  lemma SinkStep(s: seq<int>, i: nat, j: nat)
    requires 0 < j <= i < |s| && Sinking(s, i, j) && s[j] < s[j - 1]
    ensures Sinking(Swapped(s, j), i, j - 1)
  {
    var t := Swapped(s, j);
    forall p, q | 0 <= p < q <= i && q != j - 1 ensures t[p] <= t[q] {
      if q == j {
        if p < j - 1 { assert s[p] <= s[j - 1]; }
      } else {
        assert s[p] <= s[q];
        if p == j - 1 { assert s[j] <= s[q]; }
        if p == j { assert s[j - 1] <= s[q]; }
      }
    }
  }

  lemma Sunk(s: seq<int>, i: nat, j: nat)
    requires j <= i < |s| && Sinking(s, i, j) && (j > 0 ==> s[j - 1] <= s[j])
    ensures SortedTo(s, i + 1)
  {
    forall p, q | 0 <= p < q <= i ensures s[p] <= s[q] {
      if q == j && p < j - 1 { assert s[p] <= s[j - 1]; }
    }
  }

  lemma WhollySorted(s: seq<int>)
    requires s != [] ==> SortedTo(s, |s|)
    ensures forall p, q :: 0 <= p < q < |s| ==> s[p] <= s[q]
  {
  }

  /** There is one way to sort numbers. */
  lemma IsSortBy(was: seq<int>, s: seq<int>)
    requires multiset(s) == multiset(was) && forall p, q :: 0 <= p < q < |s| ==> s[p] <= s[q]
    ensures s == SortBy(Leq, was)
  {
    hide SortBy;
    SortByIsSort(Leq, was);
    SortUnique(Leq, s, SortBy(Leq, was));
  }

  // ----- Percentiles -----

  /** int(float64(n-1) * percentile/100), in exact arithmetic. */
  function PercentileIndex(n: nat, percentile: nat): nat
    requires n > 0
  {
    (n - 1) * percentile / 100
  }

  function Percentile(values: seq<int>, percentile: nat): int
    requires percentile <= 100
  {
    if |values| == 0 then 0
    else
      IndexInBounds(|values|, percentile);
      values[PercentileIndex(|values|, percentile)]
  }

  lemma IndexInBounds(n: nat, percentile: nat)
    requires n > 0 && percentile <= 100
    ensures PercentileIndex(n, percentile) < n
  {
    DivideBack(n - 1, 100);
    MulGap(percentile, 100, n - 1);
    DivideMonotone((n - 1) * percentile, 100 * (n - 1), 100);
  }

  lemma IndexMonotone(n: nat, p: nat, q: nat)
    requires n > 0 && p <= q
    ensures PercentileIndex(n, p) <= PercentileIndex(n, q)
  {
    MulGap(p, q, n - 1);
    DivideMonotone((n - 1) * p, (n - 1) * q, 100);
  }

  lemma {:induction false} CountPrefix(keep: int -> bool, s: seq<int>, n: nat)
    requires n <= |s| && forall k :: 0 <= k < n ==> keep(s[k])
    ensures Count(keep, s) >= n
  {
    if n > 0 { CountPrefix(keep, s[1..], n - 1); }
  }

  lemma {:induction false} CountSuffix(keep: int -> bool, s: seq<int>, n: nat)
    requires n <= |s| && forall k :: n <= k < |s| ==> keep(s[k])
    ensures Count(keep, s) >= |s| - n
  {
    if s != [] { CountSuffix(keep, s[1..], if n > 0 then n - 1 else 0); }
  }

  lemma {:induction false} CountBounded(keep: int -> bool, s: seq<int>, n: nat)
    requires n <= |s| && forall k :: n <= k < |s| ==> !keep(s[k])
    ensures Count(keep, s) <= n
  {
    if s != [] { CountBounded(keep, s[1..], if n > 0 then n - 1 else 0); }
  }

  lemma {:induction false} CountImplied(p: int -> bool, q: int -> bool, s: seq<int>)
    requires forall x :: p(x) ==> q(x)
    ensures Count(p, s) <= Count(q, s)
  {
    if s != [] { CountImplied(p, q, s[1..]); }
  }

  /** What a reported percentile says about the samples: it is one of them, the samples that are no
      larger number at least the index and one, and those that are no smaller make up the rest. */
  lemma PercentileMeaning(samples: seq<int>, percentile: nat)
    requires samples != [] && percentile <= 100
    ensures var v, i := Percentile(SortBy(Leq, samples), percentile), PercentileIndex(|samples|, percentile);
            && v in samples
            && Count(x => x <= v, samples) >= i + 1
            && Count(x => x >= v, samples) >= |samples| - i
            && Count(x => x < v, samples) <= i
  {
    hide SortBy, Count;
    var sorted := SortBy(Leq, samples);
    SortByIsSort(Leq, samples);
    SameElements(sorted, samples, sorted[0]);
    IndexInBounds(|samples|, percentile);
    var i := PercentileIndex(|samples|, percentile);
    var v := sorted[i];
    SameElements(sorted, samples, v);
    assert forall k :: 0 <= k < |sorted| && k != i ==>
      if k < i then Leq(sorted[k], sorted[i]) else Leq(sorted[i], sorted[k]);
    CountPermute(x => x <= v, sorted, samples);
    CountPermute(x => x >= v, sorted, samples);
    CountPermute(x => x < v, sorted, samples);
    CountPrefix(x => x <= v, sorted, i + 1);
    CountSuffix(x => x >= v, sorted, i);
    CountBounded(x => x < v, sorted, i);
  }

  /** The samples below v make up at most the percentile's share of the other samples, and with those equal to
      v they make up more. */
  ghost predicate AtShare(samples: seq<int>, percentile: nat, v: int) {
    var share := (|samples| - 1) * percentile;
    100 * Count(x => x < v, samples) <= share < 100 * Count(x => x <= v, samples)
  }

  lemma ShareIsUnique(samples: seq<int>, percentile: nat, v: int, u: int)
    requires AtShare(samples, percentile, v) && AtShare(samples, percentile, u)
    ensures v >= u
  {
    if v < u { CountImplied(x => x <= v, x => x < u, samples); }
  }

  /** A reported percentile is exactly the value that stands at its share of the samples. */
  lemma PercentileExactly(samples: seq<int>, percentile: nat, v: int)
    requires samples != [] && percentile <= 100
    ensures v == Percentile(SortBy(Leq, samples), percentile) <==> AtShare(samples, percentile, v)
  {
    hide SortBy, Count, Percentile;
    PercentileMeaning(samples, percentile);
    var u := Percentile(SortBy(Leq, samples), percentile);
    var i, _ := Quotient((|samples| - 1) * percentile, 100);
    assert AtShare(samples, percentile, u);
    if AtShare(samples, percentile, v) {
      ShareIsUnique(samples, percentile, v, u);
      ShareIsUnique(samples, percentile, u, v);
    }
  }

  /** P50 is never above P95. */
  lemma PercentilesOrdered(samples: seq<int>, p: nat, q: nat)
    requires p <= q <= 100
    ensures Percentile(SortBy(Leq, samples), p) <= Percentile(SortBy(Leq, samples), q)
  {
    hide SortBy;
    var sorted := SortBy(Leq, samples);
    SortByIsSort(Leq, samples);
    if sorted != [] {
      IndexInBounds(|sorted|, p);
      IndexInBounds(|sorted|, q);
      IndexMonotone(|sorted|, p, q);
      var i, j := PercentileIndex(|sorted|, p), PercentileIndex(|sorted|, q);
      if i < j { assert Leq(sorted[i], sorted[j]); }
    }
  }
}
