/** The percentile cut of aipkg/rag/split/semantic.go: an insertion sort and one order statistic. */
module Percentile {

  ghost predicate Sorted(s: seq<real>) { forall i, j | 0 <= i < j < |s| :: s[i] <= s[j] }

  // ----- the sort

  /** s[..i + 1] is sorted but for s[j], which may be too small for its place. */
  ghost predicate SortedExcept(s: seq<real>, i: nat, j: nat)
    requires i < |s|
  {
    forall p, q | 0 <= p < q <= i && q != j :: s[p] <= s[q]
  }

  function Swapped(s: seq<real>, j: nat): seq<real>
    requires 0 < j < |s|
  {
    s[j - 1 := s[j]][j := s[j - 1]]
  }

  lemma SwapSinks(s: seq<real>, i: nat, j: nat)
    requires 0 < j <= i < |s| && SortedExcept(s, i, j) && s[j - 1] > s[j]
    ensures SortedExcept(Swapped(s, j), i, j - 1)
    ensures multiset(Swapped(s, j)) == multiset(s)
  {
  }

  lemma PlaceFound(s: seq<real>, i: nat, j: nat)
    requires j <= i < |s| && SortedExcept(s, i, j) && (j > 0 ==> s[j - 1] <= s[j])
    ensures Sorted(s[..i + 1])
  {
    forall p, q | 0 <= p < q <= i
      ensures s[p] <= s[q]
    {
      if q == j && p < j - 1 {
        assert s[p] <= s[j - 1];
      }
    }
  }

  /** One insertion: a[i] sinks to its place in the sorted a[..i]. */
  method Insert(a: array<real>, i: nat)
    requires 0 < i < a.Length && Sorted(a[..i])
    modifies a
    ensures Sorted(a[..i + 1])
    ensures multiset(a[..]) == multiset(old(a[..]))
  {
    var j := i;
    ghost var s := a[..];
    assert forall q | 0 <= q < i :: a[..i][q] == s[q];
    while j > 0 && a[j - 1] > a[j]
      invariant 0 <= j <= i && s == a[..]
      invariant SortedExcept(s, i, j)
      invariant multiset(s) == multiset(old(a[..]))
    {
      SwapSinks(s, i, j);
      a[j - 1], a[j] := a[j], a[j - 1];
      s := Swapped(s, j);
      j := j - 1;
    }
    PlaceFound(s, i, j);
    assert a[..i + 1] == s[..i + 1];
  }

  method InsertionSort(a: array<real>)
    modifies a
    ensures Sorted(a[..]) && multiset(a[..]) == multiset(old(a[..]))
  {
    var i := 1;
    while i < a.Length
      invariant 1 <= i
      invariant i <= a.Length ==> Sorted(a[..i])
      invariant i > a.Length ==> a.Length == 0
      invariant multiset(a[..]) == multiset(old(a[..]))
    {
      Insert(a, i);
      i := i + 1;
    }
    if a.Length > 0 {
      assert a[..i] == a[..];
    }
  }

  // ----- the order statistic

  function Clamp(percentile: int): nat {
    if percentile <= 0 then 1 else if percentile >= 100 then 99 else percentile
  }

  function CeilDiv(a: nat, b: nat): nat
    requires b > 0
  {
    (a + b - 1) / b
  }

  /** The index into m sorted values: the ceiling of p percent of m - 1. */
  function Rank(percentile: int, m: nat): nat
    requires m > 0
  {
    CeilDiv(Scaled(Clamp(percentile), m), 100)
  }

  function Scaled(p: nat, m: nat): nat
    requires m > 0
  {
    p * (m - 1)
  }

  lemma CeilDivBounds(a: nat)
    ensures a <= 100 * CeilDiv(a, 100) < a + 100
  {
  }

  lemma ProductBound(p: nat, q: nat, n: nat)
    requires p <= q
    ensures p * n <= q * n
  {
  }

  lemma RankIsIndex(percentile: int, m: nat)
    requires m > 0
    ensures var p := if percentile < 1 then 1 else if percentile > 99 then 99 else percentile;
      p * (m - 1) <= 100 * Rank(percentile, m) < p * (m - 1) + 100
    ensures Rank(percentile, m) < m
  {
    var p := Clamp(percentile);
    ProductBound(p, 99, m - 1);
    CeilDivBounds(Scaled(p, m));
    hide CeilDiv;
  }

  /** v is what stands at index k when the values are sorted. */
  ghost predicate IsOrderStatistic(values: seq<real>, k: int, v: real) {
    exists s: seq<real> :: Sorted(s) && multiset(s) == multiset(values) && 0 <= k < |s| && s[k] == v
  }

  /** In exact arithmetic where the source multiplies floats. */
  method PercentileValue(values: seq<real>, percentile: int) returns (v: real)
    ensures values == [] ==> v == 0.0
    ensures values != [] ==> IsOrderStatistic(values, Rank(percentile, |values|), v)
  {
    if |values| == 0 {
      return 0.0;
    }
    var p := percentile;
    if p <= 0 {
      p := 1;
    }
    if p >= 100 {
      p := 99;
    }
    assert p == Clamp(percentile);
    hide *;
    RankIs(percentile, |values|);
    RankIsIndex(percentile, |values|);
    var sorted := CopySorted(values);
    if |sorted| == 1 {
      HasOrderStatistic(values, sorted, 0);
      return sorted[0];
    }
    var pos := CeilDiv(Scaled(p, |sorted|), 100);
    if pos >= |sorted| {
      pos := |sorted| - 1;
    }
    v := sorted[pos];
    HasOrderStatistic(values, sorted, pos);
  }

  lemma RankIs(percentile: int, m: nat)
    requires m > 0
    ensures Rank(percentile, m) == CeilDiv(Scaled(Clamp(percentile), m), 100)
  {
  }

  lemma HasOrderStatistic(values: seq<real>, sorted: seq<real>, k: nat)
    requires Sorted(sorted) && multiset(sorted) == multiset(values) && k < |sorted|
    ensures IsOrderStatistic(values, k, sorted[k])
  {
  }

  /** append([]float64{}, values...), sorted in place. */
  method CopySorted(values: seq<real>) returns (s: seq<real>)
    ensures Sorted(s) && multiset(s) == multiset(values) && |s| == |values|
  {
    var sorted := new real[|values|](i requires 0 <= i < |values| => values[i]);
    assert sorted[..] == values;
    InsertionSort(sorted);
    s := sorted[..];
  }

  lemma SameSize<T>(a: seq<T>, b: seq<T>)
    requires multiset(a) == multiset(b)
    ensures |a| == |b|
  {
    assert |multiset(a)| == |a| && |multiset(b)| == |b|;
  }

  // ----- how many values lie above it

  function CountAbove(values: seq<real>, t: real): (c: nat)
    ensures c <= |values|
  {
    if values == [] then 0 else (if values[0] > t then 1 else 0) + CountAbove(values[1..], t)
  }

  lemma {:induction false} CountAppend(a: seq<real>, b: seq<real>, t: real)
    ensures CountAbove(a + b, t) == CountAbove(a, t) + CountAbove(b, t)
  {
    if a == [] {
      assert a + b == b;
    } else {
      assert (a + b)[1..] == a[1..] + b;
      CountAppend(a[1..], b, t);
    }
  }

  lemma CountWithout(b: seq<real>, i: nat, t: real)
    requires i < |b|
    ensures CountAbove(b, t) == (if b[i] > t then 1 else 0) + CountAbove(b[..i] + b[i + 1..], t)
    ensures multiset(b[..i] + b[i + 1..]) == multiset(b) - multiset{b[i]}
  {
    assert b == b[..i] + ([b[i]] + b[i + 1..]);
    CountAppend(b[..i], [b[i]] + b[i + 1..], t);
    CountAppend(b[..i], b[i + 1..], t);
    TakeFirst([b[i]] + b[i + 1..], t);
    assert ([b[i]] + b[i + 1..])[1..] == b[i + 1..];
    hide CountAbove;
  }

  /** b without one of its values x. */
  lemma TakeOut(b: seq<real>, x: real, t: real) returns (rest: seq<real>)
    requires x in multiset(b)
    ensures multiset(rest) == multiset(b) - multiset{x}
    ensures CountAbove(b, t) == (if x > t then 1 else 0) + CountAbove(rest, t)
  {
    var i :| 0 <= i < |b| && b[i] == x;
    CountWithout(b, i, t);
    rest := b[..i] + b[i + 1..];
    hide CountAbove;
  }

  lemma TakeFirst(a: seq<real>, t: real)
    requires a != []
    ensures a[0] in multiset(a) && multiset(a[1..]) == multiset(a) - multiset{a[0]}
    ensures CountAbove(a, t) == (if a[0] > t then 1 else 0) + CountAbove(a[1..], t)
  {
    assert a == [a[0]] + a[1..];
  }

  lemma {:induction false} CountOfPermutation(a: seq<real>, b: seq<real>, t: real)
    requires multiset(a) == multiset(b)
    ensures CountAbove(a, t) == CountAbove(b, t)
    decreases |a|
  {
    if a == [] {
      SameSize(a, b);
    } else {
      hide CountAbove;
      TakeFirst(a, t);
      var rest := TakeOut(b, a[0], t);
      CountOfPermutation(a[1..], rest, t);
    }
  }

  ghost predicate AllAtMost(s: seq<real>, t: real) { forall i | 0 <= i < |s| :: s[i] <= t }

  lemma {:induction false} NoneAbove(s: seq<real>, t: real)
    requires AllAtMost(s, t)
    ensures CountAbove(s, t) == 0
  {
    if s != [] {
      NoneAbove(s[1..], t);
    }
  }

  lemma SortedPrefix(s: seq<real>, k: nat)
    requires Sorted(s) && k < |s|
    ensures AllAtMost(s[..k + 1], s[k])
  {
  }

  lemma SortedCount(s: seq<real>, k: nat)
    requires Sorted(s) && k < |s|
    ensures CountAbove(s, s[k]) <= |s| - 1 - k
  {
    hide *;
    SortedPrefix(s, k);
    NoneAbove(s[..k + 1], s[k]);
    CountSplit(s, k + 1, s[k]);
  }

  lemma CountSplit(s: seq<real>, k: nat, t: real)
    requires k <= |s|
    ensures CountAbove(s, t) == CountAbove(s[..k], t) + CountAbove(s[k..], t)
  {
    hide *;
    CountAppend(s[..k], s[k..], t);
    assert s[..k] + s[k..] == s;
  }

  /** At most the values after the k-th in sorted order lie strictly above it. */
  lemma OrderStatisticBoundsCount(values: seq<real>, k: int, v: real)
    requires IsOrderStatistic(values, k, v)
    ensures 0 <= k < |values| && CountAbove(values, v) <= |values| - 1 - k
  {
    var s :| Sorted(s) && multiset(s) == multiset(values) && 0 <= k < |s| && s[k] == v;
    hide *;
    SameSize(s, values);
    CountOfPermutation(values, s, v);
    SortedCount(s, k);
  }

  /** The cut: of m distances, at most m - 1 less the ceiling of p percent of m - 1 lie strictly
      above the percentile value. */
  lemma PercentileBoundsCuts(distances: seq<real>, percentile: int, v: real)
    requires distances != [] && IsOrderStatistic(distances, Rank(percentile, |distances|), v)
    ensures CountAbove(distances, v) <= |distances| - 1 - Rank(percentile, |distances|)
  {
    OrderStatisticBoundsCount(distances, Rank(percentile, |distances|), v);
  }
}
