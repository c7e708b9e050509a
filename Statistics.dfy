/** The statistics the sampling loop recomputes after every successful
    reply: over all latencies, and over the latencies at or above the
    filter threshold (`pings`, `filtered`, `Count`, `Average`, `Min`, `Max`
    in `MainWindow`), and the status line they are shown in. Latencies are
    whole milliseconds; the average is exact and floored for display. */
module Statistics {
  import opened Wrappers
  import opened Text

  function Sum(s: seq<int>): (total: int) {
    if s == [] then 0 else s[0] + Sum(s[1..])
  }

  /** The arithmetic mean, kept exact. */
  function Average(s: seq<int>): (mean: real)
    requires |s| > 0
  {
    (Sum(s) as real) / (|s| as real)
  }

  /** The least element: it occurs in `s` and nothing in `s` is below it. */
  function MinOf(s: seq<int>): (m: int)
    requires |s| > 0
    ensures m in s
    ensures forall i :: 0 <= i < |s| ==> m <= s[i]
  {
    if |s| == 1 then s[0]
    else
      var rest := MinOf(s[1..]);
      assert s == [s[0]] + s[1..];
      if s[0] <= rest then s[0] else rest
  }

  /** The greatest element: it occurs in `s` and nothing in `s` is above it. */
  function MaxOf(s: seq<int>): (m: int)
    requires |s| > 0
    ensures m in s
    ensures forall i :: 0 <= i < |s| ==> s[i] <= m
  {
    if |s| == 1 then s[0]
    else
      var rest := MaxOf(s[1..]);
      assert s == [s[0]] + s[1..];
      if s[0] >= rest then s[0] else rest
  }

  /** `Where(p => p >= threshold)`: the elements at or above the threshold,
      in their original order. */
  function AtLeast(s: seq<int>, threshold: int): (r: seq<int>)
    ensures |r| <= |s|
    ensures forall x :: x in r <==> x in s && x >= threshold
  {
    if s == [] then []
    else
      assert s == [s[0]] + s[1..];
      (if s[0] >= threshold then [s[0]] else []) + AtLeast(s[1..], threshold)
  }

  /** `sub` is obtained from `s` by deleting elements. */
  predicate IsSubsequence(sub: seq<int>, s: seq<int>) {
    if sub == [] then true
    else if s == [] then false
    else if sub[0] == s[0] then IsSubsequence(sub[1..], s[1..])
    else IsSubsequence(sub, s[1..])
  }

  lemma {:induction false} SubsequenceOfAll(s: seq<int>)
    ensures IsSubsequence(s, s)
  {
    if s != [] {
      SubsequenceOfAll(s[1..]);
    }
  }

  /** The filtered latencies keep their order: they are a subsequence of all
      latencies. */
  lemma {:induction false} AtLeastIsSubsequence(s: seq<int>, threshold: int)
    ensures IsSubsequence(AtLeast(s, threshold), s)
  {
    if s != [] {
      AtLeastIsSubsequence(s[1..], threshold);
      var rest := AtLeast(s[1..], threshold);
      if s[0] >= threshold {
        assert AtLeast(s, threshold) == [s[0]] + rest;
        assert ([s[0]] + rest)[1..] == rest;
      } else {
        assert AtLeast(s, threshold) == rest;
        assert rest != [] ==> rest[0] in rest && rest[0] != s[0];
      }
    }
  }

  /** Filtering keeps every occurrence of a value at or above the threshold
      and drops every other one. */
  lemma {:induction false} AtLeastOccurrences(s: seq<int>, threshold: int, x: int)
    ensures multiset(AtLeast(s, threshold))[x] == if x >= threshold then multiset(s)[x] else 0
  {
    if s != [] {
      AtLeastOccurrences(s[1..], threshold, x);
      assert s == [s[0]] + s[1..];
    }
  }

  /** A threshold at or below every latency filters nothing out (for
      instance a threshold of 0, since round-trip times are not negative). */
  lemma {:induction false} AtLeastKeepsAll(s: seq<int>, threshold: int)
    requires forall i :: 0 <= i < |s| ==> s[i] >= threshold
    ensures AtLeast(s, threshold) == s
  {
    if s != [] {
      AtLeastKeepsAll(s[1..], threshold);
      assert s == [s[0]] + s[1..];
    }
  }

  lemma {:induction false} SumBounds(s: seq<int>, lo: int, hi: int)
    requires forall i :: 0 <= i < |s| ==> lo <= s[i] <= hi
    ensures |s| * lo <= Sum(s) <= |s| * hi
  {
    if s != [] {
      SumBounds(s[1..], lo, hi);
    }
  }

  lemma RealProduct(a: int, b: int)
    ensures (a * b) as real == (a as real) * (b as real)
  {
  }

  lemma DivideWithin(total: real, count: real, lo: real, hi: real)
    requires count > 0.0
    requires count * lo <= total <= count * hi
    ensures lo <= total / count <= hi
  {
    assert (total / count) * count == total;
  }

  /** A total of `count` numbers, each between `lo` and `hi`, has its mean
      between them too. */
  lemma MeanWithin(total: int, count: nat, lo: int, hi: int)
    requires count > 0
    requires count * lo <= total <= count * hi
    ensures lo as real <= (total as real) / (count as real) <= hi as real
  {
    RealProduct(count, lo);
    RealProduct(count, hi);
    DivideWithin(total as real, count as real, lo as real, hi as real);
  }

  /** The mean lies between the least and the greatest element. */
  lemma AverageWithinRange(s: seq<int>)
    requires |s| > 0
    ensures MinOf(s) as real <= Average(s) <= MaxOf(s) as real
  {
    var lo, hi, n := MinOf(s), MaxOf(s), |s|;
    SumBounds(s, lo, hi);
    MeanWithin(Sum(s), n, lo, hi);
  }

  /** One side of the status line: how many latencies, their floored mean,
      their least and their greatest. */
  datatype Summary = Summary(count: nat, average: int, min: int, max: int)

  /** The status-line figures of a non-empty sequence of latencies. */
  function Summarize(s: seq<int>): (r: Summary)
    requires |s| > 0
    ensures r.count == |s|
    ensures r.min in s && r.max in s
    ensures forall i :: 0 <= i < |s| ==> r.min <= s[i] <= r.max
    ensures r.average as real <= Average(s) < r.average as real + 1.0
    ensures r.min <= r.average <= r.max
  {
    AverageWithinRange(s);
    Summary(|s|, Average(s).Floor, MinOf(s), MaxOf(s))
  }

  /** The figures over all latencies, and over the filtered latencies when a
      positive threshold is set. */
  datatype Report = Report(all: Summary, filtered: Option<Summary>)

  /** What one cycle's recomputation comes to. `TooFewSamples`: fewer than two
      latencies, nothing is computed. `NothingAtLeastFilter`: no latency
      reaches the threshold, and taking the maximum of the empty filtered
      sequence throws. `Ready`: the report to show. */
  datatype Outcome = TooFewSamples | NothingAtLeastFilter | Ready(report: Report)

  function Compute(values: seq<int>, filter: int): (r: Outcome)
    ensures r.TooFewSamples? <==> |values| < 2
    ensures r.NothingAtLeastFilter? <==>
      |values| >= 2 && forall i :: 0 <= i < |values| ==> values[i] < filter
    ensures r.Ready? ==> r.report.all.count == |values|
    ensures r.Ready? ==> (r.report.filtered.Some? <==> filter > 0)
    ensures r.Ready? && r.report.filtered.Some? ==>
      r.report.filtered.value.count <= r.report.all.count
    ensures r.Ready? ==> |values| > 0 && r.report.all == Summarize(values)
    ensures r.Ready? && filter > 0 ==>
      |AtLeast(values, filter)| > 0 && r.report.filtered == Some(Summarize(AtLeast(values, filter)))
  {
    if |values| < 2 then TooFewSamples
    else
      var filtered := AtLeast(values, filter);
      if |filtered| == 0 then
        assert forall i :: 0 <= i < |values| ==> values[i] !in filtered;
        NothingAtLeastFilter
      else
        assert filtered[0] in values;
        Ready(Report(Summarize(values), if filter > 0 then Some(Summarize(filtered)) else None))
  }

  /** `title: count | Avg: average | Min: min | Max: max`. */
  function RenderSummary(title: string, s: Summary): (text: string) {
    title + ": " + IntToString(s.count) + " | Avg: " + IntToString(s.average)
      + " | Min: " + IntToString(s.min) + " | Max: " + IntToString(s.max)
  }

  const FilteredSeparator := "    |    "

  /** The status line of a report. The floored mean and the extremes are
      whole numbers, which the runtime prints without a fractional part. */
  function Render(report: Report): (r: string)
    ensures RenderSummary("Total", report.all) <= r
  {
    RenderSummary("Total", report.all)
      + match report.filtered {
          case None => ""
          case Some(f) => FilteredSeparator + RenderSummary("Filtered", f)
        }
  }

  /** The filtered figures change the status line exactly when they are
      present, and then they follow the overall figures. */
  lemma RenderFiltered(report: Report)
    ensures Render(report) == Render(report.(filtered := None)) <==> report.filtered.None?
    ensures report.filtered.Some? ==>
      Render(report) == Render(report.(filtered := None)) + FilteredSeparator + RenderSummary("Filtered", report.filtered.value)
  {
    var plain := RenderSummary("Total", report.all);
    assert Render(report.(filtered := None)) == plain;
    if report.filtered.Some? {
      var tail := FilteredSeparator + RenderSummary("Filtered", report.filtered.value);
      assert Render(report) == plain + tail;
      assert |Render(report)| > |plain|;
    } else {
      assert report.(filtered := None) == report;
    }
  }
}
