# PingTool core, modelled in Dafny

PingTool is a desktop ping monitor. Once started it pings a host about once
a second. Each successful reply adds one `PingResult` to the history: the
time and the round-trip time in whole milliseconds. After each such reply
it recomputes the statistics of the history and shows them in a status
line:

- total count, floored average, minimum and maximum;
- when the filter threshold is positive, the same figures over the
  latencies at or above the threshold.

This project models the logic beneath the window:

- `Median.dfy`: the `Median` extension method. It sorts ascending, then
  takes the middle element, or the mean of the two middle elements when
  the count is even. An empty input gives 0.
- `Statistics.dfy`: the LINQ aggregates of the loop (`Count`, `Average`,
  `Min`, `Max`, `Where(p => p >= filter)`). It also holds the status line
  built from them and the three ways a recomputation can end:
  - too few samples;
  - no sample reaches the threshold, so `filtered.Max()` throws;
  - a report.
- `Status.dfy`: the `Status` record and the `StatusMessages` enum.
  `Update` overwrites six fields. `ToString` renders the message name,
  then the totals only for a positive count, then the filtered count only
  when one is set.
- `Sampler.dfy`: the `MainWindow` state:
  - the run flag guarded by Start and Stop;
  - the filter threshold parsed from the filter box;
  - one cycle of the `while (isRunning)` loop, with the ping reply as an
    input;
  - the loop over a finite sequence of replies.
- `Text.dfy`: the runtime text handling the above relies on:
  `int.ToString()`, `int.TryParse` with the default integer style, and
  `string.IsNullOrWhiteSpace`.
- `Wrappers.dfy`: an `Option` type for nullable values.

Latencies are integers. Averages and medians are exact reals, not IEEE
doubles. The status line of the loop prints whole numbers, because the
floored average and the integral extremes print without a fractional
part. `Status` holds arbitrary doubles, so `ToString` takes the runtime's
double formatting as a function parameter.

Some behaviour of the code is easy to miss, and the model keeps it:

- The code never clears the history, not even when the host changes
  between runs.
- Nothing writes the lost count of `Status`, and the window never uses
  `Status` at all.
- Start accepts any host text that is not blank. A name that does not
  resolve makes the first send throw, which ends the loop as below.
- An exception inside the loop ends the loop silently. It comes from the
  send, or from `filtered.Max()` when no latency reaches the threshold.
  No error state is set, and the run flag stays set, so Start does
  nothing until Stop is pressed.

## Model

| member | source | states |
|---|---|---|
| `Median.SortAscending` | PingTool/IEnumerableExtension.cs:13 | the ordering is ascending and a permutation of the input (same multiset, same length) |
| `Median.SortedUnique` | PingTool/IEnumerableExtension.cs:13 | two ascending sequences with the same elements are equal, so "the sorted input" does not depend on the sort used |
| `Median.Median` | PingTool/IEnumerableExtension.cs:9-10 | an empty input has median 0 |
| `Median.MedianOfSorted` | PingTool/IEnumerableExtension.cs:13-21 | for any ascending arrangement of a non-empty input: an odd count gives the element at index (n-1)/2, an even count gives the mean of the elements at n/2-1 and n/2 |
| `Median.MedianPermutation` | PingTool/IEnumerableExtension.cs:13 | inputs with the same elements in any order have the same median |
| `Median.MedianSingleton` | PingTool/IEnumerableExtension.cs:20-21 | a one-element input is its own median |
| `Median.MedianWithinRange` | PingTool/IEnumerableExtension.cs:13-21 | for a non-empty input some element is at most the median and some element is at least it, i.e. min <= median <= max |
| `Median.SortedIsOrderStatistic` | PingTool/IEnumerableExtension.cs:13-14 | index k of the ascending ordering holds the k-th smallest input value: fewer than k+1 values lie below it and more than k lie at or below it |
| `Median.OrderStatisticUnique` | PingTool/IEnumerableExtension.cs:13-14 | at most one value is the k-th smallest |
| `Median.MedianOfOddCount` | PingTool/IEnumerableExtension.cs:19-21 | for an odd count the median is the middle order statistic, defined by counting alone, without a sort |
| `Median.MedianOfEvenCount` | PingTool/IEnumerableExtension.cs:15-17 | for an even non-zero count the median is the mean of the two middle order statistics |
| `Median.MedianOfThree` | PingTool/IEnumerableExtension.cs:19-21 | any arrangement of x <= y <= z has median y (the median of 10, 20, 30 is 20) |
| `Median.MedianOfTwo` | PingTool/IEnumerableExtension.cs:15-17 | any arrangement of x <= y has median (x+y)/2 (the median of 10, 20 is 15) |
| `Statistics.MinOf` | PingTool/MainWindow.xaml.cs:113 | the minimum occurs among the latencies and no latency is below it |
| `Statistics.MaxOf` | PingTool/MainWindow.xaml.cs:114 | the maximum occurs among the latencies and no latency is above it |
| `Statistics.AtLeast` | PingTool/MainWindow.xaml.cs:89 | the filtered latencies are exactly the values at or above the threshold; there are never more of them than latencies |
| `Statistics.AtLeastIsSubsequence` | PingTool/MainWindow.xaml.cs:89 | the filtered latencies keep their original order: they are a subsequence of all latencies |
| `Statistics.AtLeastOccurrences` | PingTool/MainWindow.xaml.cs:89 | every occurrence of a value at or above the threshold is kept and every other one dropped |
| `Statistics.AtLeastKeepsAll` | PingTool/MainWindow.xaml.cs:89 | a threshold at or below every latency (such as 0) filters nothing out |
| `Statistics.AverageWithinRange` | PingTool/MainWindow.xaml.cs:112 | the exact mean lies between the minimum and the maximum |
| `Statistics.Summarize` | PingTool/MainWindow.xaml.cs:110-114 | total is the number of latencies; the displayed average is the floor of the mean and lies between min and max; min and max bound every latency and occur among them |
| `Statistics.Compute` | PingTool/MainWindow.xaml.cs:86-123 | no statistics below 2 samples; a throw exactly when at least 2 samples exist and all are below the threshold. Otherwise the overall figures are the `Summarize` of all latencies, with the history length as the total. Filtered figures are present exactly when the threshold is positive; they are then the `Summarize` of the latencies at or above it, and never count more than the total |
| `Statistics.Render` | PingTool/MainWindow.xaml.cs:110-114 | the status line starts with the overall figures |
| `Statistics.RenderFiltered` | PingTool/MainWindow.xaml.cs:116-123 | the filtered figures change the status line exactly when present, and are appended after the overall figures |
| `StatusModel.Name` | PingTool/Status.cs:43-50 | every message name is non-empty |
| `StatusModel.NamesPrefixFree` | PingTool/Status.cs:43-50 | no message name is a prefix of another |
| `StatusModel.Render` | PingTool/Status.cs:26-40 | the text starts with the message name, and is exactly the name if and only if the count is not positive |
| `StatusModel.RenderFiltered` | PingTool/Status.cs:30-36 | the filtered count changes the text exactly when the count is positive and a filtered count is set; it then follows the totals segment (total, average, min, max, median, lost, in that order) |
| `StatusModel.RenderDeterminesMessage` | PingTool/Status.cs:28-29 | two statuses with the same text carry the same message |
| `StatusModel.Status.constructor` | PingTool/Status.cs:5-14 | a new status has every field at its default: zeros, no filtered count, message `Starting` |
| `StatusModel.Status.Update` | PingTool/Status.cs:16-24 | count, average, min, max, median and message become the arguments (message `Running` when omitted); filtered and lost counts stay unchanged |
| `StatusModel.Status.ToString` | PingTool/Status.cs:26-40 | the text of the current fields starts with the message name and is only the name when the count is not positive |
| `Text.IntToString` | PingTool/Status.cs:32 | the decimal text of an integer is non-empty, starts with a sign or digit and ends with a digit; it is all digits exactly for non-negative integers |
| `Text.TryParseInt32` | PingTool/MainWindow.xaml.cs:143 | a parsed value always fits in 32 bits |
| `Text.ParseRendered` | PingTool/MainWindow.xaml.cs:143-146 | parsing the decimal text of any 32-bit integer gives that integer back |
| `Text.ParseSkipsLeadingWhite` | PingTool/MainWindow.xaml.cs:143 | white space before the number does not change the parse |
| `Sampler.ToInt32` | PingTool/MainWindow.xaml.cs:184 | the round-trip-time cast gives a 32-bit value congruent to its input modulo 2^32, equal to it when it already fits |
| `Sampler.Recorded` | PingTool/MainWindow.xaml.cs:83-85 | a successful reply adds one result, any other reply none |
| `Sampler.RecordedAllLength` | PingTool/MainWindow.xaml.cs:83-85 | over any interleaving of replies the history grows by exactly the number of successes |
| `Sampler.Latencies` | PingTool/MainWindow.xaml.cs:88 | one latency per history entry, in order |
| `Sampler.FilterOf` | PingTool/MainWindow.xaml.cs:143-150 | the threshold is the parsed integer when the text parses, 0 otherwise |
| `Sampler.FilterOfRendered` | PingTool/MainWindow.xaml.cs:143-145 | typing the decimal text of a 32-bit integer sets the threshold to it |
| `Sampler.MainWindow.constructor` | PingTool/MainWindow.xaml.cs:16-19 | empty history, not running, threshold 0 |
| `Sampler.MainWindow.Start` | PingTool/MainWindow.xaml.cs:51-63 | starts exactly when not running and the host is not blank; otherwise nothing changes; on start the flag is set, the status reads "Starting" and the host is recorded; the history and threshold are kept |
| `Sampler.MainWindow.Stop` | PingTool/MainWindow.xaml.cs:65-69 | from any state the flag is cleared and the status reads "Stopped"; history, threshold and host are kept |
| `Sampler.MainWindow.FilterTextChanged` | PingTool/MainWindow.xaml.cs:141-151 | the threshold becomes the parse of the text, or 0; nothing else changes |
| `Sampler.MainWindow.Cycle` | PingTool/MainWindow.xaml.cs:79-131 | flag clear: the loop ends and nothing changes. Success: one result is appended and earlier entries are kept. Other status: history unchanged. The cycle crashes exactly when `CrashesOn` holds (a throwing send, or an empty filtered set), with the status unchanged. Otherwise the status shows the rendered statistics of the new history, when there are at least 2 samples; in every case the status is `StatusAfterCycle` of the old one |
| `Sampler.StatusAfterCycle` | PingTool/MainWindow.xaml.cs:83-123 | a reply other than a success leaves the status line as it was; the line changes only when the new history has statistics to show |
| `Sampler.StatusAfterFailures` | PingTool/MainWindow.xaml.cs:126-129 | any number of failed replies leaves the status line as it was |
| `Sampler.MainWindow.Run` | PingTool/MainWindow.xaml.cs:73-138 | the loop stops at the first reply that crashes, or consumes every reply if none does: no consumed reply before the last crashes, and the run ends `Crashed` exactly when the last consumed reply crashes on the history recorded before it. The history grows by the results of the consumed replies, in order. The status line is `StatusAfter` the consumed replies, one cycle's rule applied per reply. The flag, threshold and host are unchanged |

## Left out

- Plotting: the histogram, its rebinning, axis rules, auto-scaling, refresh, the mouse handlers and `UserInteracted`. They are presentation with no state the statistics depend on.
- Concurrency is not modelled. This covers `Task.Run`, `Dispatcher.Invoke` and the unsynchronised sharing of the run flag and the threshold between threads. A cycle is one sequential step.
  - The filtered query is lazy, so a threshold change during one cycle could make lines 92, 101 and 119-122 see different thresholds. The model reads the threshold once per cycle.
  - Pressing Stop then Start before the old loop wakes leaves two loops running. The model has one loop.
- `Ping.Send`, `DateTime.Now`, `Task.Delay` and `Debug.WriteLine` are not modelled. The reply, with its clock reading, is an input to a cycle. The delays and the debug output have no effect on state.
- `Sampler.MainWindow.Run`: consumes a finite sequence of replies. The real loop runs until the flag is cleared between cycles or an exception occurs. In a sequential model, clearing the flag shows up as a `Cycle` that returns `Exited`.
- Double arithmetic and formatting are not modelled. Averages and medians are exact reals, and `Status.ToString` takes the double formatting as a parameter.
- `Median.Median`: has no precondition for the null check. A sequence value always exists, so the null argument cannot be expressed.
- `Sampler.MainWindow.Start`: takes the host text as a non-null string. The text box never yields null, and `IsBlank` covers the empty and white-space cases of `string.IsNullOrWhiteSpace`.
- `Text.TryParseInt32`: assumes the invariant culture's `-` and `+` signs. It does not accept the trailing NUL characters the runtime tolerates.
- `Text.IntToString`: writes negative numbers with the invariant culture's `-`. The status lines format with the current culture (PingTool/MainWindow.xaml.cs:110-122, PingTool/Status.cs:32-35), whose negative sign can differ. This affects only negative values: a wrapped round-trip time, or a negative `Lost` or `Filtered`.
- `HostError` and `PingError` are declared in PingTool/Status.cs:43-50, but no code in these files uses them. The model has them as enum values only.
- The timestamps of the history are not ordered by the model. The clock reading is an opaque input.
- `PingResult` is declared both in PingTool/PingResult.cs:5-17 and in PingTool/MainWindow.xaml.cs:175-186 with identical members; the model has the one `PingResult` datatype.
