/** The statistics snapshot `Status` with its status message: `Update`
    overwrites the figures and the message, `ToString` renders the message
    name, then the totals only when there is a positive count, then the
    filtered count only when one is set. */
module StatusModel {
  import opened Wrappers
  import opened Text

  /** `StatusMessages`, in declaration order (`Starting` is the default). */
  datatype StatusMessage = Starting | Stopped | Running | HostError | PingError

  /** The enum member's name, as `ToString()` gives it. */
  function Name(m: StatusMessage): (s: string)
    ensures |s| > 0
  {
    match m
    case Starting => "Starting"
    case Stopped => "Stopped"
    case Running => "Running"
    case HostError => "HostError"
    case PingError => "PingError"
  }

  /** No message name is a prefix of another, so the text a status starts
      with tells which message it carries. */
  lemma NamesPrefixFree(m: StatusMessage, n: StatusMessage)
    requires Name(m) <= Name(n)
    ensures m == n
  {
    // the first letter tells the names apart, except Starting and Stopped,
    // which the third letter does
    assert |Name(m)| >= 3;
    assert Name(m)[0] == Name(n)[0] && Name(m)[2] == Name(n)[2];
  }

  /** The field values of a `Status`. */
  datatype Fields = Fields(
    count: int, avg: real, min: real, max: real, median: real,
    filtered: Option<int>, lost: int, message: StatusMessage)

  const Bar := "   |   "

  /** The totals segment: count, average, minimum, maximum, median and lost
      count, in that order. `formatReal` is the runtime's rendering of a
      double. */
  function Totals(f: Fields, formatReal: real -> string): (text: string) {
    Bar + "Total: " + IntToString(f.count) + " | Avg: " + formatReal(f.avg)
      + " | Min: " + formatReal(f.min) + " | Max: " + formatReal(f.max)
      + " | Median: " + formatReal(f.median) + " | Lost: " + IntToString(f.lost)
  }

  /** The text `ToString` builds from the field values. */
  function Render(f: Fields, formatReal: real -> string): (r: string)
    ensures Name(f.message) <= r
    ensures r == Name(f.message) <==> f.count <= 0
  {
    var head := Name(f.message);
    if f.count > 0 then
      var totals := Totals(f, formatReal);
      var text := head + totals
        + match f.filtered {
            case None => ""
            case Some(v) => Bar + "Filtered: " + IntToString(v)
          };
      assert text[..|head|] == head;
      assert |text| >= |head| + |Bar|;
      text
    else head
  }

  /** The filtered count shows in the text exactly when the count is
      positive and a filtered count is set; it then follows the totals. */
  lemma RenderFiltered(f: Fields, formatReal: real -> string)
    ensures Render(f, formatReal) == Render(f.(filtered := None), formatReal)
        <==> f.count <= 0 || f.filtered.None?
    ensures f.count > 0 && f.filtered.Some? ==>
      Render(f, formatReal)
        == Render(f.(filtered := None), formatReal) + Bar + "Filtered: " + IntToString(f.filtered.value)
  {
    if f.count > 0 {
      var plain := Name(f.message) + Totals(f, formatReal);
      assert Totals(f.(filtered := None), formatReal) == Totals(f, formatReal);
      assert Render(f.(filtered := None), formatReal) == plain;
      if f.filtered.Some? {
        var tail := Bar + "Filtered: " + IntToString(f.filtered.value);
        assert Render(f, formatReal) == plain + tail;
        assert |Render(f, formatReal)| > |plain|;
      } else {
        assert f.(filtered := None) == f;
      }
    }
  }

  /** The text determines the status message it was rendered from. */
  lemma RenderDeterminesMessage(f: Fields, g: Fields, formatReal: real -> string)
    requires Render(f, formatReal) == Render(g, formatReal)
    ensures f.message == g.message
  {
    var r := Render(f, formatReal);
    var a, b := Name(f.message), Name(g.message);
    assert a <= r && b <= r;
    if |a| <= |b| {
      assert a == b[..|a|];
      NamesPrefixFree(f.message, g.message);
    } else {
      assert b == a[..|b|];
      NamesPrefixFree(g.message, f.message);
    }
  }

  class Status {
    var count: int
    var avg: real
    var min: real
    var max: real
    var median: real
    var filtered: Option<int>
    var lost: int
    var message: StatusMessage

    /** The implicit constructor: every field at its default value. */
    constructor ()
      ensures Snapshot() == Fields(0, 0.0, 0.0, 0.0, 0.0, None, 0, Starting)
    {
      count, avg, min, max, median := 0, 0.0, 0.0, 0.0, 0.0;
      filtered, lost, message := None, 0, Starting;
    }

    function Snapshot(): (f: Fields)
      reads this
    {
      Fields(count, avg, min, max, median, filtered, lost, message)
    }

    /** Sets the count, the four figures and the message (`Running` when
      omitted); the filtered and lost counts stay as they were. */
    method Update(count: int, avg: real, min: real, max: real, med: real, msg: StatusMessage := Running)
      modifies this
      ensures Snapshot() == old(Snapshot()).(count := count, avg := avg, min := min, max := max, median := med, message := msg)
      ensures filtered == old(filtered) && lost == old(lost)
    {
      this.count := count;
      this.avg := avg;
      this.min := min;
      this.max := max;
      this.median := med;
      this.message := msg;
    }

    function ToString(formatReal: real -> string): (r: string)
      reads this
      ensures Name(message) <= r
      ensures r == Name(message) <==> count <= 0
    {
      Render(Snapshot(), formatReal)
    }
  }
}
