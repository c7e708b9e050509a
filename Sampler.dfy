/** The logic of the main window underneath its plotting: the run flag that
    the Start and Stop buttons guard, the filter threshold typed into the
    filter box, and the sampling loop that appends one latency per
    successful reply and recomputes the statistics shown in the status
    line. One loop cycle is one sequential step whose ping reply is an
    input. */
module Sampler {
  import opened Wrappers
  import opened Text
  import Statistics

  /** The reading of the clock when a reply was recorded, as ticks. */
  datatype Instant = Instant(ticks: int)

  /** `PingResult`: when a reply came in and its round-trip time in ms. */
  datatype PingResult = PingResult(time: Instant, value: int)

  /** What sending one ping came to: a reply with status success, with its
      round-trip time (a 64-bit count of milliseconds) and the clock reading
      at that moment; a reply with any other status; or an exception from
      the send itself (an unresolvable host name, for one). */
  datatype Reply = Success(roundtripTime: int, at: Instant) | Failure | Threw

  /** The unchecked conversion `(int)` of a 64-bit value to 32 bits. */
  function ToInt32(x: int): (r: int)
    ensures InInt32(r)
    ensures InInt32(x) ==> r == x
    ensures (r - x) % 0x1_0000_0000 == 0
  {
    (x - Int32Min) % 0x1_0000_0000 + Int32Min
  }

  /** What a reply adds to the history: one result on success, none otherwise. */
  function Recorded(reply: Reply): (r: seq<PingResult>)
    ensures |r| == if reply.Success? then 1 else 0
  {
    match reply
    case Success(rtt, at) => [PingResult(at, ToInt32(rtt))]
    case Failure => []
    case Threw => []
  }

  /** The results a run of replies adds to the history, in order. */
  function RecordedAll(replies: seq<Reply>): (r: seq<PingResult>)
    ensures |r| <= |replies|
  {
    if replies == [] then []
    else RecordedAll(replies[..|replies| - 1]) + Recorded(replies[|replies| - 1])
  }

  function CountSuccesses(replies: seq<Reply>): (n: nat) {
    if replies == [] then 0
    else CountSuccesses(replies[..|replies| - 1]) + (if replies[|replies| - 1].Success? then 1 else 0)
  }

  /** However successes and failures interleave, the history grows by one
      result per success and by nothing per failure. */
  lemma {:induction false} RecordedAllLength(replies: seq<Reply>)
    ensures |RecordedAll(replies)| == CountSuccesses(replies)
  {
    if replies != [] {
      RecordedAllLength(replies[..|replies| - 1]);
    }
  }

  /** The latencies of the history (`PingResults.Select(p => p.Value)`). */
  function Latencies(history: seq<PingResult>): (r: seq<int>)
    ensures |r| == |history|
    ensures forall i :: 0 <= i < |history| ==> r[i] == history[i].value
  {
    if history == [] then [] else Latencies(history[..|history| - 1]) + [history[|history| - 1].value]
  }

  /** The filter box text as a threshold: the parsed number, or 0 when the
      text is not a 32-bit integer. */
  function FilterOf(text: string): (r: int)
    ensures InInt32(r)
    ensures TryParseInt32(text).Some? ==> r == TryParseInt32(text).value
    ensures TryParseInt32(text).None? ==> r == 0
  {
    TryParseInt32(text).GetOr(0)
  }

  /** Typing a number's decimal text into the filter box sets the threshold
      to that number. */
  lemma FilterOfRendered(n: int)
    requires InInt32(n)
    ensures FilterOf(IntToString(n)) == n
  {
    ParseRendered(n);
  }

  /** How one cycle of the loop ended. `Exited`: the run flag was clear at
      the top of the loop, so the loop ended without pinging. `Continued`:
      the loop goes on. `Crashed`: the send or the statistics threw, which
      ends the loop and leaves the run flag set. */
  datatype CycleEnd = Exited | Continued | Crashed

  /** Whether a running cycle that gets `reply`, with `history` recorded so
      far, ends the loop with an exception: the send threw, or the reply
      succeeded and no latency of the new history reaches the threshold, so
      the maximum of the empty filtered sequence throws. */
  predicate CrashesOn(history: seq<PingResult>, filter: int, reply: Reply) {
    reply.Threw? ||
    (reply.Success? &&
     Statistics.Compute(Latencies(history + Recorded(reply)), filter).NothingAtLeastFilter?)
  }

  /** Whether the reply at index `k` of `replies` crashes the loop when the
      replies are handled in turn from `history`. */
  predicate CrashesAt(history: seq<PingResult>, filter: int, replies: seq<Reply>, k: int)
    requires 0 <= k < |replies|
  {
    CrashesOn(history + RecordedAll(replies[..k]), filter, replies[k])
  }

  /** The replies before `n` that do not crash, followed by one more that
      does not, make `n` replies that do not. */
  lemma NoCrashStep(history: seq<PingResult>, filter: int, replies: seq<Reply>, n: nat)
    requires n < |replies|
    requires forall k :: 0 <= k < n - 1 ==> !CrashesAt(history, filter, replies, k)
    requires n > 0 ==> !CrashesAt(history, filter, replies, n - 1)
    ensures forall k :: 0 <= k < n ==> !CrashesAt(history, filter, replies, k)
  {
  }

  /** The status line after a running cycle that gets `reply`: the rendered
      report when the reply succeeded and there are statistics to show,
      otherwise the line as it was. */
  function StatusAfterCycle(status: string, history: seq<PingResult>, filter: int, reply: Reply): (r: string)
    ensures !reply.Success? ==> r == status
    ensures r != status ==> Statistics.Compute(Latencies(history + Recorded(reply)), filter).Ready?
  {
    if reply.Success? then
      match Statistics.Compute(Latencies(history + Recorded(reply)), filter)
      case Ready(report) => Statistics.Render(report)
      case _ => status
    else status
  }

  /** The status line after the loop has handled `replies` in turn, starting
      from `status` and `history`. */
  function StatusAfter(status: string, history: seq<PingResult>, filter: int, replies: seq<Reply>): (r: string)
  {
    if replies == [] then status
    else
      var earlier := replies[..|replies| - 1];
      StatusAfterCycle(StatusAfter(status, history, filter, earlier),
                       history + RecordedAll(earlier), filter, replies[|replies| - 1])
  }

  /** Replies that all failed leave the status line as it was. */
  lemma {:induction false} StatusAfterFailures(status: string, history: seq<PingResult>, filter: int, replies: seq<Reply>)
    requires forall i :: 0 <= i < |replies| ==> replies[i].Failure?
    ensures StatusAfter(status, history, filter, replies) == status
  {
    if replies != [] {
      StatusAfterFailures(status, history, filter, replies[..|replies| - 1]);
    }
  }

  /** Handling one more reply extends the history by what it records and
      the status line by one cycle's rule. */
  lemma RunStep(status: string, history: seq<PingResult>, filter: int, replies: seq<Reply>, n: nat)
    requires n < |replies|
    ensures RecordedAll(replies[..n + 1]) == RecordedAll(replies[..n]) + Recorded(replies[n])
    ensures history + RecordedAll(replies[..n + 1]) == (history + RecordedAll(replies[..n])) + Recorded(replies[n])
    ensures StatusAfter(status, history, filter, replies[..n + 1])
      == StatusAfterCycle(StatusAfter(status, history, filter, replies[..n]),
                          history + RecordedAll(replies[..n]), filter, replies[n])
  {
    var next := replies[..n + 1];
    assert next[..n] == replies[..n];
    assert next[n] == replies[n];
  }

  class MainWindow {
    var history: seq<PingResult>
    var isRunning: bool
    var filter: int
    var host: string
    var statusText: string

    /** A new window: no history, not running, no filter. The host is empty
        until a run starts, and the status line shows `initialStatus`. */
    constructor (initialStatus: string)
      ensures history == [] && !isRunning && filter == 0
      ensures host == "" && statusText == initialStatus
    {
      history, isRunning, filter := [], false, 0;
      host, statusText := "", initialStatus;
    }

    /** The Start button with `hostText` in the host box. Nothing happens
        while running or when the host is blank; otherwise the run flag is
        set, the status reads "Starting" and the loop is to ping `hostText`.
        The history is kept from earlier runs. */
    method Start(hostText: string) returns (started: bool)
      modifies this
      ensures started <==> !old(isRunning) && !IsBlank(hostText)
      ensures !started ==> unchanged(this)
      ensures started ==> isRunning && statusText == "Starting" && host == hostText
      ensures history == old(history) && filter == old(filter)
    {
      if isRunning {
        return false;
      }
      if IsBlank(hostText) {
        return false;
      }
      isRunning := true;
      statusText := "Starting";
      host := hostText;
      started := true;
    }

    /** The Stop button: clears the run flag from any state and shows
        "Stopped". The loop notices the flag only at its next cycle. */
    method Stop()
      modifies this
      ensures !isRunning && statusText == "Stopped"
      ensures history == old(history) && filter == old(filter) && host == old(host)
    {
      isRunning := false;
      statusText := "Stopped";
    }

    /** The filter box changed to `text`. */
    method FilterTextChanged(text: string)
      modifies this
      ensures filter == FilterOf(text)
      ensures history == old(history) && isRunning == old(isRunning)
      ensures host == old(host) && statusText == old(statusText)
    {
      var parsed := TryParseInt32(text);
      if parsed.Some? {
        filter := parsed.value;
      } else {
        filter := 0;
      }
    }

    /** One cycle of the sampling loop, given the reply the ping got. */
    method Cycle(reply: Reply) returns (end: CycleEnd)
      modifies this
      ensures !old(isRunning) ==> end == Exited && unchanged(this)
      ensures old(isRunning) ==> end != Exited
      ensures isRunning == old(isRunning) && filter == old(filter) && host == old(host)
      ensures old(isRunning) ==> history == old(history) + Recorded(reply)
      ensures old(isRunning) && reply.Failure? ==> end == Continued && statusText == old(statusText)
      ensures old(isRunning) && reply.Threw? ==> end == Crashed && statusText == old(statusText)
      ensures old(isRunning) && reply.Success? ==>
        match Statistics.Compute(Latencies(history), filter)
        case TooFewSamples => end == Continued && statusText == old(statusText)
        case NothingAtLeastFilter => end == Crashed && statusText == old(statusText)
        case Ready(report) => end == Continued && statusText == Statistics.Render(report)
      ensures old(isRunning) ==> (end == Crashed <==> CrashesOn(old(history), filter, reply))
      ensures old(isRunning) ==> statusText == StatusAfterCycle(old(statusText), old(history), filter, reply)
    {
      if !isRunning {
        return Exited;
      }
      match reply
      case Failure =>
        end := Continued;
      case Threw =>
        end := Crashed;
      case Success(rtt, at) =>
        history := history + [PingResult(at, ToInt32(rtt))];
        match Statistics.Compute(Latencies(history), filter)
        case TooFewSamples =>
          end := Continued;
        case NothingAtLeastFilter =>
          end := Crashed;
        case Ready(report) =>
          statusText := Statistics.Render(report);
          end := Continued;
    }

    /** The loop `while (isRunning)` run against a finite sequence of
        replies: it goes on while the flag is set, there are replies left
        and no cycle crashed. Returns how many replies were consumed and
        how the last cycle ended. The loop stops at the first reply that
        crashes, and the status line is the one the consumed replies leave. */
    method Run(replies: seq<Reply>) returns (consumed: nat, end: CycleEnd)
      modifies this
      ensures consumed <= |replies|
      ensures !old(isRunning) ==> consumed == 0 && end == Exited && unchanged(this)
      ensures old(isRunning) ==> consumed == |replies| || end == Crashed
      ensures forall k :: 0 <= k < consumed - 1 ==> !CrashesAt(old(history), filter, replies, k)
      ensures end == Crashed <==> consumed > 0 && CrashesAt(old(history), filter, replies, consumed - 1)
      ensures history == old(history) + RecordedAll(replies[..consumed])
      ensures statusText == StatusAfter(old(statusText), old(history), filter, replies[..consumed])
      ensures isRunning == old(isRunning) && filter == old(filter) && host == old(host)
    {
      consumed, end := 0, Continued;
      if !isRunning {
        return 0, Exited;
      }
      while consumed < |replies| && end != Crashed
        invariant consumed <= |replies|
        invariant isRunning && isRunning == old(isRunning)
        invariant filter == old(filter) && host == old(host)
        invariant history == old(history) + RecordedAll(replies[..consumed])
        invariant statusText == StatusAfter(old(statusText), old(history), filter, replies[..consumed])
        invariant forall k :: 0 <= k < consumed - 1 ==> !CrashesAt(old(history), filter, replies, k)
        invariant end == Crashed <==> consumed > 0 && CrashesAt(old(history), filter, replies, consumed - 1)
        invariant end != Exited
      {
        NoCrashStep(old(history), filter, replies, consumed);
        RunStep(old(statusText), old(history), filter, replies, consumed);
        assert CrashesAt(old(history), filter, replies, consumed) == CrashesOn(history, filter, replies[consumed]);
        end := Cycle(replies[consumed]);
        consumed := consumed + 1;
      }
    }
  }
}
