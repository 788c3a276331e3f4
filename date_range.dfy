/** `generate_date_range`: every date from a start to an end, inclusive,
    walking backward when the start lies after the end. */
module DateRanges {
  import opened Base
  import opened Dates

  /** Python's `range(0, stop, step)` for a step of 1 or -1. */
  function PyRange(stop: int, step: int): (ks: seq<int>)
    requires step == 1 || step == -1
    ensures |ks| == if step * stop > 0 then Abs(stop) else 0
    ensures forall i :: 0 <= i < |ks| ==> ks[i] == if step == 1 then i else -i
  {
    if step == 1 then seq(if stop > 0 then stop else 0, i => i)
    else seq(if stop < 0 then -stop else 0, i => -i)
  }

  /** One yielded element: the date itself without a pattern, its text with one. */
  function Emit(x: DateLike, format: Option<string>, strftime: Formatter): DateLike
    requires Structured(x)
  {
    if format.None? then x else Text(Strftime(x, format.value, strftime))
  }

  /** The sequence `generate_date_range(start, end, format)` yields, or the
      exception it raises on its first step. */
  function DateRange(start: DateLike, end: DateLike, format: Option<string>,
                     parse: Parser, strftime: Formatter): (r: Result<seq<DateLike>>)
    ensures r.Ok? ==> |r.value| >= 1 && AsDate(start, format, parse).Ok? &&
                      r.value[0] == Emit(AsDate(start, format, parse).value, format, strftime)
  {
    var s :- AsDate(start, format, parse);
    var t :- AsDate(end, format, parse);
    Walk(s, t, format, strftime)
  }

  /** The loop of `generate_date_range` over two normalised ends. */
  function Walk(s: DateLike, t: DateLike, format: Option<string>, strftime: Formatter): (r: Result<seq<DateLike>>)
    requires Structured(s) && Structured(t)
    ensures r.Ok? <==> s.Date? == t.Date?
    ensures r.Err? ==> r.error == TypeError
    ensures r.Ok? ==> |r.value| == Abs(DaysBetween(s, t).value) + 1
    ensures r.Ok? ==> r.value[0] == Emit(s, format, strftime)
  {
    var ascending :- LessEq(s, t);
    var step := if ascending then 1 else -1;
    // the comparison succeeded, so the ends are of one kind and subtract
    var days := DaysBetween(s, t).value;
    var ks := PyRange(days + step, step);
    Ok(seq(|ks|, i requires 0 <= i < |ks| => Emit(AddDays(s, ks[i]), format, strftime)))
  }

  /** Between two ends of the same kind the walk holds |days| + 1 dates,
      the k-th lying k days from the start toward the end. */
  lemma WalkElements(s: DateLike, t: DateLike, format: Option<string>, strftime: Formatter)
    requires Structured(s) && Structured(t) && s.Date? == t.Date?
    ensures Walk(s, t, format, strftime).Ok?
    ensures var days := DaysBetween(s, t).value;
            var ds := Walk(s, t, format, strftime).value;
            && |ds| == Abs(days) + 1
            && (forall k :: 0 <= k < |ds| ==> ds[k] == Emit(AddDays(s, if days >= 0 then k else -k), format, strftime))
  {
    var days := DaysBetween(s, t).value;
    var step := if LessEq(s, t).value then 1 else -1;
    var ks := PyRange(days + step, step);
    assert |ks| == Abs(days) + 1;
    var ds := Walk(s, t, format, strftime).value;
    forall k | 0 <= k < |ds|
      ensures ds[k] == Emit(AddDays(s, if days >= 0 then k else -k), format, strftime)
    {
      assert ks[k] == if days >= 0 then k else -k;
    }
  }

  /** Between two ends of the same kind the walk holds |days| + 1 dates,
      starts at the start, moves one day per element toward the end (forward
      when start <= end, backward otherwise) and, when both ends share a time
      of day, finishes at the end. */
  lemma WalkShape(s: DateLike, t: DateLike, format: Option<string>, strftime: Formatter)
    requires Structured(s) && Structured(t) && s.Date? == t.Date?
    ensures Walk(s, t, format, strftime).Ok?
    ensures var days := DaysBetween(s, t).value;
            var ds := Walk(s, t, format, strftime).value;
            && |ds| == Abs(days) + 1
            && (LessEq(s, t).value <==> days >= 0)
            && (forall k :: 0 <= k < |ds| ==> ds[k] == Emit(AddDays(s, if days >= 0 then k else -k), format, strftime))
            && ds[0] == Emit(s, format, strftime)
            && (TimeOfDay(s) == TimeOfDay(t) ==> ds[|ds| - 1] == Emit(t, format, strftime))
  {
    var days := DaysBetween(s, t).value;
    WalkElements(s, t, format, strftime);
    var ds := Walk(s, t, format, strftime).value;
    assert ds[0] == Emit(AddDays(s, 0), format, strftime);
    assert AddDays(s, 0) == s;
    if TimeOfDay(s) == TimeOfDay(t) {
      assert ds[|ds| - 1] == Emit(AddDays(s, days), format, strftime);
      assert AddDays(s, days) == t;
    }
  }

  /** The range is produced exactly when both ends normalise to values of the
      same kind, and it is then the walk between the normalised ends;
      otherwise the error of the first failing step is raised. */
  lemma DateRangeWalk(start: DateLike, end: DateLike, format: Option<string>,
                      parse: Parser, strftime: Formatter)
    ensures DateRange(start, end, format, parse, strftime).Ok? <==>
              AsDate(start, format, parse).Ok? && AsDate(end, format, parse).Ok? &&
              AsDate(start, format, parse).value.Date? == AsDate(end, format, parse).value.Date?
    ensures AsDate(start, format, parse).Err? ==>
              DateRange(start, end, format, parse, strftime) == Err(AsDate(start, format, parse).error)
    ensures AsDate(start, format, parse).Ok? && AsDate(end, format, parse).Err? ==>
              DateRange(start, end, format, parse, strftime) == Err(AsDate(end, format, parse).error)
    ensures AsDate(start, format, parse).Ok? && AsDate(end, format, parse).Ok? &&
            AsDate(start, format, parse).value.Date? != AsDate(end, format, parse).value.Date? ==>
              DateRange(start, end, format, parse, strftime) == Err(TypeError)
    ensures DateRange(start, end, format, parse, strftime).Ok? ==>
              DateRange(start, end, format, parse, strftime) ==
              Walk(AsDate(start, format, parse).value, AsDate(end, format, parse).value, format, strftime)
  {
    var rs, rt := AsDate(start, format, parse), AsDate(end, format, parse);
    if rs.Ok? && rt.Ok? && rs.value.Date? == rt.value.Date? {
      WalkShape(rs.value, rt.value, format, strftime);
    }
  }

  /** The walk is the one sequence of |days| + 1 dates whose k-th lies k
      days from the start toward the end. */
  lemma WalkOfDates(s: DateLike, t: DateLike, format: Option<string>, strftime: Formatter, out: seq<DateLike>)
    requires Structured(s) && Structured(t) && s.Date? == t.Date?
    requires |out| == Abs(DaysBetween(s, t).value) + 1
    requires forall i :: 0 <= i < |out| ==>
               out[i] == Emit(AddDays(s, if LessEq(s, t).value then i else -i), format, strftime)
    ensures Walk(s, t, format, strftime) == Ok(out)
  {
    WalkElements(s, t, format, strftime);
    var ds := Walk(s, t, format, strftime).value;
    assert LessEq(s, t).value <==> DaysBetween(s, t).value >= 0;
    assert forall i :: 0 <= i < |out| ==> out[i] == ds[i];
    assert out == ds;
  }

  /** The generator's loop: one date per offset of `range(0, days + step, step)`. */
  method GenerateDateRange(start: DateLike, end: DateLike, format: Option<string>,
                           parse: Parser, strftime: Formatter) returns (r: Result<seq<DateLike>>)
    ensures r == DateRange(start, end, format, parse, strftime)
  {
    var s :- AsDate(start, format, parse);
    var t :- AsDate(end, format, parse);
    var ascending :- LessEq(s, t);
    var step := if ascending then 1 else -1;
    var days := DaysBetween(s, t).value;
    var stop := days + step;
    var out: seq<DateLike> := [];
    var k := 0;
    while k != stop
      invariant ascending ==> 0 <= k <= stop
      invariant !ascending ==> stop <= k <= 0
      invariant |out| == Abs(k)
      invariant forall i :: 0 <= i < |out| ==> out[i] == Emit(AddDays(s, if ascending then i else -i), format, strftime)
      decreases Abs(stop - k)
    {
      out := out + [Emit(AddDays(s, k), format, strftime)];
      k := k + step;
    }
    WalkOfDates(s, t, format, strftime, out);
    assert DateRange(start, end, format, parse, strftime) == Walk(s, t, format, strftime);
    r := Ok(out);
  }
}
