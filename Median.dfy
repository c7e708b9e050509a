/** The `Median` extension method over a sequence of latencies: sort
    ascending, then take the middle element (odd count) or the mean of the
    two middle elements (even count); an empty sequence has median 0.

    The values are doubles in the tool, converted from whole milliseconds;
    they are modelled as reals, so there is no NaN and no rounding. */
module Median {

  predicate Sorted(s: seq<real>) {
    forall i, j :: 0 <= i < j < |s| ==> s[i] <= s[j]
  }

  /** `x` put into its place in the ascending sequence `t`. */
  function Insert(x: real, t: seq<real>): (r: seq<real>)
    ensures multiset(r) == multiset(t) + multiset{x}
    ensures r[0] == x || r[0] == t[0]
  {
    if t == [] || x <= t[0] then [x] + t
    else
      assert t == [t[0]] + t[1..];
      [t[0]] + Insert(x, t[1..])
  }

  lemma {:induction false} InsertSorted(x: real, t: seq<real>)
    requires Sorted(t)
    ensures Sorted(Insert(x, t))
  {
    if t != [] && x > t[0] {
      InsertSorted(x, t[1..]);
      var rest := Insert(x, t[1..]);
      forall i, j | 0 <= i < j < |rest| + 1 ensures ([t[0]] + rest)[i] <= ([t[0]] + rest)[j] {
        if i == 0 {
          assert t[0] <= rest[0] <= rest[j - 1];
        }
      }
    }
  }

  /** The ascending ordering of the input (`OrderBy(x => x).ToArray()`). */
  function SortAscending(s: seq<real>): (r: seq<real>)
    ensures Sorted(r)
    ensures multiset(r) == multiset(s)
    ensures |r| == |s|
  {
    if s == [] then []
    else
      assert s == [s[0]] + s[1..];
      InsertSorted(s[0], SortAscending(s[1..]));
      Insert(s[0], SortAscending(s[1..]))
  }

  /** The middle element of `arr` (odd length), or the mean of its two middle
      elements (even length). */
  function Middle(arr: seq<real>): (r: real)
    requires |arr| > 0
  {
    var len := |arr|;
    if len % 2 == 0 then (arr[len / 2 - 1] + arr[len / 2]) / 2.0
    else arr[(len - 1) / 2]
  }

  /** `Median(values)` as the tool computes it. The input sequence exists by
      construction, so the null check the method starts with has no
      counterpart. */
  function Median(values: seq<real>): (r: real)
    ensures |values| == 0 ==> r == 0.0
  {
    if |values| == 0 then 0.0 else Middle(SortAscending(values))
  }

  // ---------------------------------------------------------------------
  // The ascending ordering of a multiset is unique.

  lemma SortedTail(a: seq<real>)
    requires Sorted(a) && a != []
    ensures Sorted(a[1..])
    ensures multiset(a[1..]) == multiset(a) - multiset{a[0]}
    ensures forall x :: x in multiset(a) ==> a[0] <= x
  {
    assert a == [a[0]] + a[1..];
  }

  lemma {:induction false} SortedUnique(a: seq<real>, b: seq<real>)
    requires Sorted(a) && Sorted(b)
    requires multiset(a) == multiset(b)
    ensures a == b
  {
    assert |a| == |multiset(a)| == |b|;
    if a != [] {
      SortedTail(a);
      SortedTail(b);
      assert a[0] in multiset(b);
      assert b[0] in multiset(a);
      assert a[0] == b[0];
      assert multiset(a[1..]) == multiset(b[1..]);
      SortedUnique(a[1..], b[1..]);
      assert forall i :: 0 < i < |a| ==> a[i] == a[1..][i - 1];
      assert forall i :: 0 < i < |b| ==> b[i] == b[1..][i - 1];
    }
  }

  /** Whatever ascending arrangement of the input is used, the median is its
      middle element (odd count) or the mean of its two middle elements
      (even count). */
  lemma MedianOfSorted(values: seq<real>, sorted: seq<real>)
    requires Sorted(sorted) && multiset(sorted) == multiset(values)
    requires |values| > 0
    ensures |sorted| == |values|
    ensures Median(values) == Middle(sorted)
    ensures |values| % 2 == 1 ==> Median(values) == sorted[(|values| - 1) / 2]
    ensures |values| % 2 == 0 ==>
      Median(values) == (sorted[|values| / 2 - 1] + sorted[|values| / 2]) / 2.0
  {
    var arr := SortAscending(values);
    SortedUnique(sorted, arr);
    assert Median(values) == Middle(sorted);
  }

  /** The median does not depend on the order of the input. */
  lemma MedianPermutation(a: seq<real>, b: seq<real>)
    requires multiset(a) == multiset(b)
    ensures Median(a) == Median(b)
  {
    SortedUnique(SortAscending(a), SortAscending(b));
  }

  /** A one-element input is its own median. */
  lemma MedianSingleton(x: real)
    ensures Median([x]) == x
  {
    var arr := SortAscending([x]);
    assert arr[0] in multiset([x]);
  }

  /** The median lies between the least and the greatest input value: some
      input value is at most it and some input value is at least it. */
  lemma MedianWithinRange(values: seq<real>)
    requires |values| > 0
    ensures exists i :: 0 <= i < |values| && values[i] <= Median(values)
    ensures exists j :: 0 <= j < |values| && Median(values) <= values[j]
  {
    var arr := SortAscending(values);
    var len := |arr|;
    assert Median(values) == Middle(arr);
    var lo := if len % 2 == 0 then len / 2 - 1 else (len - 1) / 2;
    var hi := if len % 2 == 0 then len / 2 else (len - 1) / 2;
    assert arr[lo] <= Median(values) <= arr[hi];
    assert arr[lo] in multiset(values) && arr[hi] in multiset(values);
    assert arr[lo] in values && arr[hi] in values;
  }

  // ---------------------------------------------------------------------
  // An order-based reference definition: v is the k-th smallest (from 0) of
  // s when fewer than k+1 elements are below v and more than k are at most v.

  /** How many elements of `s` are below `v` (or at most `v` when `orEqual`). */
  function CountBelow(s: seq<real>, v: real, orEqual: bool): (n: nat)
    ensures n <= |s|
  {
    if s == [] then 0
    else (if s[0] < v || (orEqual && s[0] == v) then 1 else 0) + CountBelow(s[1..], v, orEqual)
  }

  predicate IsOrderStatistic(s: seq<real>, k: nat, v: real) {
    CountBelow(s, v, false) <= k < CountBelow(s, v, true)
  }

  lemma {:induction false} CountBelowAppend(a: seq<real>, b: seq<real>, v: real, orEqual: bool)
    ensures CountBelow(a + b, v, orEqual) == CountBelow(a, v, orEqual) + CountBelow(b, v, orEqual)
  {
    if a == [] {
      assert a + b == b;
    } else {
      assert (a + b)[0] == a[0];
      assert (a + b)[1..] == a[1..] + b;
      CountBelowAppend(a[1..], b, v, orEqual);
    }
  }

  lemma {:induction false} CountBelowInsert(x: real, t: seq<real>, v: real, orEqual: bool)
    ensures CountBelow(Insert(x, t), v, orEqual) == CountBelow([x], v, orEqual) + CountBelow(t, v, orEqual)
  {
    if t != [] && x > t[0] {
      CountBelowInsert(x, t[1..], v, orEqual);
      assert ([t[0]] + Insert(x, t[1..]))[1..] == Insert(x, t[1..]);
    }
  }

  lemma {:induction false} CountBelowSort(s: seq<real>, v: real, orEqual: bool)
    ensures CountBelow(SortAscending(s), v, orEqual) == CountBelow(s, v, orEqual)
  {
    if s != [] {
      CountBelowSort(s[1..], v, orEqual);
      CountBelowInsert(s[0], SortAscending(s[1..]), v, orEqual);
    }
  }

  /** Counting respects the order of the bounds: everything at most `v` is
      below any `w` above `v`. */
  lemma {:induction false} CountBelowMonotone(s: seq<real>, v: real, w: real)
    requires v < w
    ensures CountBelow(s, v, true) <= CountBelow(s, w, false)
  {
    if s != [] {
      CountBelowMonotone(s[1..], v, w);
    }
  }

  lemma {:induction false} CountBelowAll(s: seq<real>, v: real, orEqual: bool)
    requires forall i :: 0 <= i < |s| ==> s[i] < v || (orEqual && s[i] == v)
    ensures CountBelow(s, v, orEqual) == |s|
  {
    if s != [] {
      CountBelowAll(s[1..], v, orEqual);
    }
  }

  lemma {:induction false} CountBelowNone(s: seq<real>, v: real, orEqual: bool)
    requires forall i :: 0 <= i < |s| ==> !(s[i] < v || (orEqual && s[i] == v))
    ensures CountBelow(s, v, orEqual) == 0
  {
    if s != [] {
      CountBelowNone(s[1..], v, orEqual);
    }
  }

  /** At most one value is the k-th smallest. */
  lemma OrderStatisticUnique(s: seq<real>, k: nat, v: real, w: real)
    requires IsOrderStatistic(s, k, v) && IsOrderStatistic(s, k, w)
    ensures v == w
  {
    if v < w {
      CountBelowMonotone(s, v, w);
    } else if w < v {
      CountBelowMonotone(s, w, v);
    }
  }

  /** In an ascending sequence the element at index k is its k-th smallest. */
  lemma SortedAtIsOrderStatistic(t: seq<real>, k: nat)
    requires Sorted(t) && k < |t|
    ensures IsOrderStatistic(t, k, t[k])
  {
    var v := t[k];
    assert t == t[..k] + t[k..];
    CountBelowAppend(t[..k], t[k..], v, false);
    CountBelowNone(t[k..], v, false);
    assert t == t[..k + 1] + t[k + 1..];
    CountBelowAppend(t[..k + 1], t[k + 1..], v, true);
    CountBelowAll(t[..k + 1], v, true);
  }

  /** The element at index k of the ascending ordering is the k-th smallest
      element of the input. */
  lemma SortedIsOrderStatistic(s: seq<real>, k: nat)
    requires k < |s|
    ensures IsOrderStatistic(s, k, SortAscending(s)[k])
  {
    var t := SortAscending(s);
    SortedAtIsOrderStatistic(t, k);
    CountBelowSort(s, t[k], false);
    CountBelowSort(s, t[k], true);
  }

  /** For an odd count the median is the middle order statistic. */
  lemma MedianOfOddCount(values: seq<real>, mid: real)
    requires |values| % 2 == 1
    requires IsOrderStatistic(values, (|values| - 1) / 2, mid)
    ensures Median(values) == mid
  {
    SortedIsOrderStatistic(values, (|values| - 1) / 2);
    OrderStatisticUnique(values, (|values| - 1) / 2, mid, SortAscending(values)[(|values| - 1) / 2]);
  }

  /** For an even, non-zero count the median is the mean of the two middle
      order statistics. */
  lemma MedianOfEvenCount(values: seq<real>, lower: real, upper: real)
    requires |values| > 0 && |values| % 2 == 0
    requires IsOrderStatistic(values, |values| / 2 - 1, lower)
    requires IsOrderStatistic(values, |values| / 2, upper)
    ensures Median(values) == (lower + upper) / 2.0
  {
    var n := |values|;
    SortedIsOrderStatistic(values, n / 2 - 1);
    SortedIsOrderStatistic(values, n / 2);
    OrderStatisticUnique(values, n / 2 - 1, lower, SortAscending(values)[n / 2 - 1]);
    OrderStatisticUnique(values, n / 2, upper, SortAscending(values)[n / 2]);
  }

  /** Three values in any order: the median is the middle one (so the
      median of 10, 20, 30 is 20). */
  lemma MedianOfThree(values: seq<real>, x: real, y: real, z: real)
    requires x <= y <= z
    requires multiset(values) == multiset([x, y, z])
    ensures Median(values) == y
  {
    var sorted := [x, y, z];
    assert Middle(sorted) == y;
    MedianOfSorted(values, sorted);
  }

  /** Two values in any order: the median is their mean (so the median of 10
      and 20 is 15). */
  lemma MedianOfTwo(values: seq<real>, x: real, y: real)
    requires x <= y
    requires multiset(values) == multiset([x, y])
    ensures Median(values) == (x + y) / 2.0
  {
    var sorted := [x, y];
    assert Middle(sorted) == (x + y) / 2.0;
    MedianOfSorted(values, sorted);
  }
}
