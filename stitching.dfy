/** What the stream of `get_exr_timeseries` amounts to for an ascending range
    of ISO dates: the planned windows fetched in order, their rows joined, the
    first failing window ending the stream; with a well-behaved service, no
    (date, currency) appears twice and every row falls inside the range. */
module Stitching {
  import opened Base
  import opened Dates
  import opened Partition
  import opened Lookahead
  import opened Windows
  import opened ExchangeRates

  /** The windows rendered as the ISO text the requests carry. */
  function IsoWindows(strftime: Formatter, w: seq<(int, int)>): seq<(DateLike, DateLike)> {
    seq(|w|, i requires 0 <= i < |w| => (IsoText(strftime, w[i].0), IsoText(strftime, w[i].1)))
  }

  /** The stream read directly off a list of windows: each fetched in turn,
      its rows appended, until one fails. */
  function FetchAll(windows: seq<(DateLike, DateLike)>, parse: Parser, service: Service): Outcome
    decreases |windows|
  {
    if windows == [] then Outcome([], None)
    else
      match FetchWindow(windows[0].0, windows[0].1, parse, service)
      case Err(e) => Outcome([], Some(e))
      case Ok(rows) => Prepend(rows, FetchAll(windows[1..], parse, service))
  }

  /** The rows of the first j windows, each of which is fetched successfully. */
  function RowsBefore(windows: seq<(DateLike, DateLike)>, j: nat, parse: Parser, service: Service): seq<ExchangeRow>
    requires j <= |windows|
    requires forall i :: 0 <= i < j ==> FetchWindow(windows[i].0, windows[i].1, parse, service).Ok?
    decreases j
  {
    if j == 0 then []
    else FetchWindow(windows[0].0, windows[0].1, parse, service).value
           + RowsBefore(windows[1..], j - 1, parse, service)
  }

  /** The stream holds the rows of every window before the first failing one,
      in fetch order, and stops with that window's exception; with no failing
      window it holds all rows and ends normally. */
  lemma {:induction false} FetchAllStops(windows: seq<(DateLike, DateLike)>, j: nat, parse: Parser, service: Service)
    requires j <= |windows|
    requires forall i :: 0 <= i < j ==> FetchWindow(windows[i].0, windows[i].1, parse, service).Ok?
    requires j < |windows| ==> FetchWindow(windows[j].0, windows[j].1, parse, service).Err?
    ensures FetchAll(windows, parse, service) ==
              Outcome(RowsBefore(windows, j, parse, service),
                      if j < |windows| then Some(FetchWindow(windows[j].0, windows[j].1, parse, service).error)
                      else None)
    decreases j
  {
    if j > 0 {
      FetchAllStops(windows[1..], j - 1, parse, service);
    }
  }

  /** Draining the tagged pairs is fetching the windows when each pair starts
      where its window does and its shifted end is the window's end. */
  lemma {:induction false} DrainFetchAll(tagged: seq<((DateLike, DateLike), bool)>,
                                          windows: seq<(DateLike, DateLike)>,
                                          parse: Parser, strftime: Formatter, service: Service)
    requires |tagged| == |windows|
    requires forall i :: 0 <= i < |tagged| ==>
               tagged[i].0.0 == windows[i].0 &&
               ShiftedEnd(tagged[i].0.1, tagged[i].1, parse, strftime) == Ok(windows[i].1)
    ensures Drain(tagged, parse, strftime, service) == FetchAll(windows, parse, service)
    decreases |tagged|
  {
    if tagged != [] {
      DrainFetchAll(tagged[1..], windows[1..], parse, strftime, service);
    }
  }

  /** Fetching the ISO texts of days lo and hi: the assertion refuses more
      than 365 days, otherwise the service's response decides. */
  lemma FetchIso(lo: int, hi: int, parse: Parser, strftime: Formatter, service: Service)
    requires IsoPair(parse, strftime)
    ensures FetchWindow(IsoText(strftime, lo), IsoText(strftime, hi), parse, service) ==
              if hi - lo > 365 then Err(AssertionError)
              else Respond(service(IsoText(strftime, lo), IsoText(strftime, hi)))
  {
    assert AsDate(IsoText(strftime, lo), Some(IsoFormat), parse) == Ok(DateTime(lo, 0));
    assert AsDate(IsoText(strftime, hi), Some(IsoFormat), parse) == Ok(DateTime(hi, 0));
  }

  /** The shifted end of the ISO text of a day is the ISO text of the day
      before, or of the day itself on the last pair. */
  lemma ShiftIso(parse: Parser, strftime: Formatter, day: int, isLast: bool)
    requires IsoPair(parse, strftime)
    ensures ShiftedEnd(IsoText(strftime, day), isLast, parse, strftime)
            == Ok(IsoText(strftime, if isLast then day else day - 1))
  {
    assert AsDate(IsoText(strftime, day), Some(IsoFormat), parse) == Ok(DateTime(day, 0));
  }

  /** For ISO dates a <= b, `n_cuts` is the number of 365-day cuts of b - a. */
  lemma NCutsIso(startDate: string, endDate: string, parse: Parser, strftime: Formatter)
    requires IsoPair(parse, strftime)
    requires parse(startDate, IsoFormat).Some? && parse(endDate, IsoFormat).Some?
    requires parse(startDate, IsoFormat).value.0 <= parse(endDate, IsoFormat).value.0
    ensures NCuts(startDate, endDate, parse)
            == Ok(Cuts(parse(endDate, IsoFormat).value.0 - parse(startDate, IsoFormat).value.0))
  {
  }

  /** The i-th tagged date pair: the ISO texts of the days at points i and
      i + 1, flagged when it is the last pair. */
  lemma TaggedAt(strftime: Formatter, a: int, p: seq<nat>, i: nat)
    requires i < |p| - 1
    ensures |TagLast(DayPairs(strftime, a, p))| == |p| - 1
    ensures TagLast(DayPairs(strftime, a, p))[i]
            == ((IsoText(strftime, a + p[i]), IsoText(strftime, a + p[i + 1])), i == |p| - 2)
  {
    var pairs := DayPairs(strftime, a, p);
    assert |pairs| == |p| - 1;
    assert pairs[i] == (IsoText(strftime, a + p[i]), IsoText(strftime, a + p[i + 1]));
    assert TagLast(pairs)[i] == (pairs[i], i == |pairs| - 1);
  }

  /** The i-th tagged pair of ISO days at points p lines up with a window
      that joins the same points, its end moved back one day but on the last. */
  lemma PairMatchesWindow(parse: Parser, strftime: Formatter, a: int, p: seq<nat>, w: seq<(int, int)>, i: nat)
    requires IsoPair(parse, strftime)
    requires |p| >= 2 && |w| == |p| - 1 && i < |w|
    requires w[i] == (a + p[i], if i == |w| - 1 then a + p[i + 1] else a + p[i + 1] - 1)
    ensures var tagged, windows := TagLast(DayPairs(strftime, a, p)), IsoWindows(strftime, w);
            && |tagged| == |windows|
            && tagged[i].0.0 == windows[i].0
            && ShiftedEnd(tagged[i].0.1, tagged[i].1, parse, strftime) == Ok(windows[i].1)
  {
    var tagged, windows := TagLast(DayPairs(strftime, a, p)), IsoWindows(strftime, w);
    var isLast := i == |p| - 2;
    TaggedAt(strftime, a, p, i);
    assert tagged[i] == ((IsoText(strftime, a + p[i]), IsoText(strftime, a + p[i + 1])), isLast);
    assert windows[i] == (IsoText(strftime, w[i].0), IsoText(strftime, w[i].1));
    ShiftIso(parse, strftime, a + p[i + 1], isLast);
  }

  /** Tagged pairs of ISO days at points p line up with windows w that join
      the same points, ends moved back one day but the last. */
  lemma PairsMatchWindows(parse: Parser, strftime: Formatter, a: int, p: seq<nat>, w: seq<(int, int)>)
    requires IsoPair(parse, strftime) && Joins(a, p, w)
    ensures var tagged, windows := TagLast(DayPairs(strftime, a, p)), IsoWindows(strftime, w);
            && |tagged| == |windows|
            && (forall i :: 0 <= i < |tagged| ==>
                  tagged[i].0.0 == windows[i].0 &&
                  ShiftedEnd(tagged[i].0.1, tagged[i].1, parse, strftime) == Ok(windows[i].1))
  {
    var tagged, windows := TagLast(DayPairs(strftime, a, p)), IsoWindows(strftime, w);
    TaggedAt(strftime, a, p, 0);
    forall i | 0 <= i < |tagged|
      ensures tagged[i].0.0 == windows[i].0
      ensures ShiftedEnd(tagged[i].0.1, tagged[i].1, parse, strftime) == Ok(windows[i].1)
    {
      PairMatchesWindow(parse, strftime, a, p, w, i);
    }
  }

  /** Draining the tagged pairs of ISO days at points p is fetching the
      windows w that join the same points. */
  lemma DrainJoined(parse: Parser, strftime: Formatter, service: Service, a: int, p: seq<nat>, w: seq<(int, int)>)
    requires IsoPair(parse, strftime) && Joins(a, p, w)
    ensures Drain(TagLast(DayPairs(strftime, a, p)), parse, strftime, service)
            == FetchAll(IsoWindows(strftime, w), parse, service)
  {
    PairsMatchWindows(parse, strftime, a, p, w);
    DrainFetchAll(TagLast(DayPairs(strftime, a, p)), IsoWindows(strftime, w), parse, strftime, service);
  }

  /** Each tagged date pair of a range of d + 1 >= 2 days from day a is
      fetched as the corresponding planned window. */
  lemma DrainPlan(a: int, d: nat, parse: Parser, strftime: Formatter, service: Service)
    requires IsoPair(parse, strftime) && d >= 1
    ensures Drain(TagLast(DayPairs(strftime, a, Points(d + 1, Cuts(d)))), parse, strftime, service)
            == FetchAll(IsoWindows(strftime, Plan(a, d)), parse, service)
  {
    PlanAt(a, d);
    DrainJoined(parse, strftime, service, a, Points(d + 1, Cuts(d)), Plan(a, d));
  }

  /** The stream once `n_cuts` and the date pairs are known. */
  lemma TimeseriesIs(startDate: string, endDate: string, parse: Parser, strftime: Formatter,
                     service: Service, n: nat, pairs: seq<(DateLike, DateLike)>)
    requires NCuts(startDate, endDate, parse) == Ok(n)
    requires GenerateDatePairs(Text(startDate), Text(endDate), n, parse, strftime) == Ok(pairs)
    ensures Timeseries(startDate, endDate, parse, strftime, service) == Drain(TagLast(pairs), parse, strftime, service)
  {
  }

  /** For ISO dates d >= 1 days apart from day a, the stream drains the
      tagged ISO date pairs at the points of the range. */
  lemma TimeseriesPairs(startDate: string, endDate: string, parse: Parser, strftime: Formatter,
                        service: Service, a: int, d: nat)
    requires IsoPair(parse, strftime) && d >= 1
    requires parse(startDate, IsoFormat).Some? && parse(startDate, IsoFormat).value.0 == a
    requires parse(endDate, IsoFormat).Some? && parse(endDate, IsoFormat).value.0 == a + d
    ensures Timeseries(startDate, endDate, parse, strftime, service)
            == Drain(TagLast(DayPairs(strftime, a, Points(d + 1, Cuts(d)))), parse, strftime, service)
  {
    var n := Cuts(d);
    assert NCuts(startDate, endDate, parse) == Ok(n) by {
      NCutsIso(startDate, endDate, parse, strftime);
    }
    DatePairsIso(startDate, endDate, n, parse, strftime);
    TimeseriesIs(startDate, endDate, parse, strftime, service, n, DayPairs(strftime, a, Points(d + 1, n)));
  }

  /** For ISO dates d >= 1 days apart from day a, the stream is the planned
      windows fetched in order. */
  lemma TimeseriesRange(startDate: string, endDate: string, parse: Parser, strftime: Formatter,
                        service: Service, a: int, d: nat)
    requires IsoPair(parse, strftime) && d >= 1
    requires parse(startDate, IsoFormat).Some? && parse(startDate, IsoFormat).value.0 == a
    requires parse(endDate, IsoFormat).Some? && parse(endDate, IsoFormat).value.0 == a + d
    ensures Timeseries(startDate, endDate, parse, strftime, service)
            == FetchAll(IsoWindows(strftime, Plan(a, d)), parse, service)
  {
    TimeseriesPairs(startDate, endDate, parse, strftime, service, a, d);
    DrainPlan(a, d, parse, strftime, service);
  }

  /** A range of one ISO date fetches nothing and yields nothing. */
  lemma TimeseriesSingleDay(startDate: string, endDate: string, parse: Parser, strftime: Formatter,
                            service: Service)
    requires IsoPair(parse, strftime)
    requires parse(startDate, IsoFormat).Some? && parse(endDate, IsoFormat).Some?
    requires parse(startDate, IsoFormat).value.0 == parse(endDate, IsoFormat).value.0
    ensures Timeseries(startDate, endDate, parse, strftime, service) == Outcome([], None)
  {
    NCutsIso(startDate, endDate, parse, strftime);
    TimeseriesIs(startDate, endDate, parse, strftime, service, 0, []);
    assert TagLast<(DateLike, DateLike)>([]) == [];
  }

  /** A single-day range streams exactly what its empty plan does. */
  lemma TimeseriesEmpty(startDate: string, endDate: string, parse: Parser, strftime: Formatter,
                            service: Service, a: int)
    requires IsoPair(parse, strftime)
    requires parse(startDate, IsoFormat).Some? && parse(endDate, IsoFormat).Some?
    requires parse(startDate, IsoFormat).value.0 == a == parse(endDate, IsoFormat).value.0
    ensures Timeseries(startDate, endDate, parse, strftime, service) == FetchAll(IsoWindows(strftime, Plan(a, 0)), parse, service)
  {
    TimeseriesSingleDay(startDate, endDate, parse, strftime, service);
    assert IsoWindows(strftime, Plan(a, 0)) == [];
  }

  /** For ISO dates naming the days a and a + d, the stream is the planned
      windows of the range fetched in order. */
  lemma TimeseriesPlan(startDate: string, endDate: string,
                       parse: Parser, strftime: Formatter, service: Service, a: int, d: nat)
    requires IsoPair(parse, strftime)
    requires parse(startDate, IsoFormat).Some? && parse(startDate, IsoFormat).value.0 == a
    requires parse(endDate, IsoFormat).Some? && parse(endDate, IsoFormat).value.0 == a + d
    ensures Timeseries(startDate, endDate, parse, strftime, service)
            == FetchAll(IsoWindows(strftime, Plan(a, d)), parse, service)
  {
    if d == 0 {
      TimeseriesEmpty(startDate, endDate, parse, strftime, service, a);
    } else {
      TimeseriesRange(startDate, endDate, parse, strftime, service, a, d);
    }
  }

  /** The day of a date key as the ISO pattern reads it lies in [lo, hi]. */
  ghost predicate DayWithin(parse: Parser, key: string, lo: int, hi: int) {
    parse(key, IsoFormat).Some? && lo <= parse(key, IsoFormat).value.0 <= hi
  }

  /** A response that carries a well-formed "rates" member whose date keys
      are ISO dates within [lo, hi]. */
  ghost predicate Answers(response: Response, parse: Parser, lo: int, hi: int) {
    && response.Body? && response.rates.Some?
    && WellFormed(response.rates.value)
    && (forall i :: 0 <= i < |response.rates.value| ==> DayWithin(parse, response.rates.value[i].0, lo, hi))
  }

  /** A service that answers every request for the ISO dates lo <= hi, at
      most 365 days apart, with rates for dates of that window only. */
  ghost predicate Faithful(service: Service, parse: Parser, strftime: Formatter) {
    forall lo: int, hi: int {:trigger service(IsoText(strftime, lo), IsoText(strftime, hi))} ::
      lo <= hi <= lo + 365 ==> Answers(service(IsoText(strftime, lo), IsoText(strftime, hi)), parse, lo, hi)
  }

  /** The rows of a well-formed member whose keys lie in [lo, hi] are
      distinct and dated inside [lo, hi]. */
  lemma FlattenWithin(rates: Rates, parse: Parser, lo: int, hi: int)
    requires WellFormed(rates)
    requires forall i :: 0 <= i < |rates| ==> DayWithin(parse, rates[i].0, lo, hi)
    ensures RowsDistinct(Flatten(rates))
    ensures forall k :: 0 <= k < |Flatten(rates)| ==> DayWithin(parse, Flatten(rates)[k].date, lo, hi)
  {
    FlattenDistinct(rates);
  }

  /** Every row is dated within [lo, hi]. */
  ghost predicate RowsWithin(rows: seq<ExchangeRow>, parse: Parser, lo: int, hi: int) {
    forall k :: 0 <= k < |rows| ==> DayWithin(parse, rows[k].date, lo, hi)
  }

  /** A window of at most 365 days fetched from a faithful service yields
      distinct rows dated inside it. */
  lemma FetchFaithful(lo: int, hi: int, parse: Parser, strftime: Formatter, service: Service)
    requires IsoPair(parse, strftime) && Faithful(service, parse, strftime)
    requires lo <= hi <= lo + 365
    ensures var r := FetchWindow(IsoText(strftime, lo), IsoText(strftime, hi), parse, service);
            r.Ok? && RowsDistinct(r.value) && RowsWithin(r.value, parse, lo, hi)
  {
    FetchIso(lo, hi, parse, strftime, service);
    var response := service(IsoText(strftime, lo), IsoText(strftime, hi));
    assert Answers(response, parse, lo, hi);
    FlattenWithin(response.rates.value, parse, lo, hi);
  }

  /** Rows of an earlier window followed by rows dated after it: still
      distinct, and dated within the union of the two spans. */
  lemma AppendDistinct(front: seq<ExchangeRow>, rest: seq<ExchangeRow>, parse: Parser,
                       lo: int, hi: int, next: int, last: int)
    requires RowsDistinct(front) && RowsWithin(front, parse, lo, hi)
    requires RowsDistinct(rest) && RowsWithin(rest, parse, next, last)
    requires lo <= hi < next <= last
    ensures RowsDistinct(front + rest) && RowsWithin(front + rest, parse, lo, last)
  {
    var all := front + rest;
    forall k | 0 <= k < |all|
      ensures DayWithin(parse, all[k].date, lo, last)
    {
      if k < |front| {
        assert all[k] == front[k];
      } else {
        assert all[k] == rest[k - |front|];
      }
    }
    forall k, l | 0 <= k < l < |all|
      ensures all[k].date != all[l].date || all[k].currency != all[l].currency
    {
      if k < |front| <= l {
        assert all[l] == rest[l - |front|];
        assert DayWithin(parse, rest[l - |front|].date, next, last);
      } else if |front| <= k {
        assert all[k] == rest[k - |front|];
        assert all[l] == rest[l - |front|];
      }
    }
  }

  /** Windows that are non-empty, at most 365 days long and strictly
      ordered, fetched from a faithful service: the stream ends normally, no
      (date, currency) appears twice, and every row is dated between the
      first window's start and the last window's end. */
  lemma {:induction false} FetchAllDistinct(w: seq<(int, int)>, parse: Parser, strftime: Formatter, service: Service)
    requires IsoPair(parse, strftime) && Faithful(service, parse, strftime)
    requires forall i :: 0 <= i < |w| ==> w[i].0 <= w[i].1 <= w[i].0 + 365
    requires forall i, j :: 0 <= i < j < |w| ==> w[i].1 < w[j].0
    ensures var o := FetchAll(IsoWindows(strftime, w), parse, service);
            && o.failure == None
            && RowsDistinct(o.rows)
            && (|w| > 0 ==> RowsWithin(o.rows, parse, w[0].0, w[|w| - 1].1))
    decreases |w|
  {
    if w != [] {
      var lo, hi := w[0].0, w[0].1;
      var windows := IsoWindows(strftime, w);
      assert windows[1..] == IsoWindows(strftime, w[1..]);
      FetchFaithful(lo, hi, parse, strftime, service);
      FetchAllDistinct(w[1..], parse, strftime, service);
      var front := FetchWindow(windows[0].0, windows[0].1, parse, service).value;
      var rest := FetchAll(windows[1..], parse, service);
      assert FetchAll(windows, parse, service) == Prepend(front, rest);
      if |w| == 1 {
        assert rest.rows == [];
        assert front + rest.rows == front;
      } else {
        AppendDistinct(front, rest.rows, parse, lo, hi, w[1].0, w[|w| - 1].1);
      }
    }
  }

  /** A stream that ends normally, holds no (date, currency) twice, and
      whose rows are all dated within [lo, hi]. */
  ghost predicate Clean(o: Outcome, parse: Parser, lo: int, hi: int) {
    o.failure == None && RowsDistinct(o.rows) && RowsWithin(o.rows, parse, lo, hi)
  }

  /** The planned windows of a range of more than one day from day a to day
      a + d, unless d is a multiple of 365 * 366, stream cleanly from a
      faithful service. */
  lemma SpreadPlanClean(a: int, d: nat, parse: Parser, strftime: Formatter, service: Service)
    requires IsoPair(parse, strftime) && Faithful(service, parse, strftime)
    requires d >= 1 && d % 133590 != 0
    ensures Clean(FetchAll(IsoWindows(strftime, Plan(a, d)), parse, service), parse, a, a + d)
  {
    var w := Plan(a, d);
    PlanPartition(a, d);
    PlanSpans(a, d);
    assert forall i :: 0 <= i < |w| ==> w[i].0 <= w[i].1 <= w[i].0 + 365;
    FetchAllDistinct(w, parse, strftime, service);
  }

  /** The planned windows of a range from day a to day a + d, unless d is a
      positive multiple of 365 * 366, stream cleanly from a faithful service;
      a single-day range streams nothing. */
  lemma PlanNoDuplicates(a: int, d: nat, parse: Parser, strftime: Formatter, service: Service)
    requires IsoPair(parse, strftime) && Faithful(service, parse, strftime)
    requires d == 0 || d % 133590 != 0
    ensures Clean(FetchAll(IsoWindows(strftime, Plan(a, d)), parse, service), parse, a, a + d)
  {
    if d == 0 {
      assert IsoWindows(strftime, []) == [];
    } else {
      SpreadPlanClean(a, d, parse, strftime, service);
    }
  }

  /** The deduplication guarantee end to end: for ISO dates naming the days
      a and a + d, unless d is a positive multiple of 365 * 366, a faithful
      service makes the stream end normally with no (date, currency) twice
      and every row dated within [a, a + d]. */
  lemma TimeseriesNoDuplicates(startDate: string, endDate: string,
                               parse: Parser, strftime: Formatter, service: Service, a: int, d: nat)
    requires IsoPair(parse, strftime) && Faithful(service, parse, strftime)
    requires parse(startDate, IsoFormat).Some? && parse(startDate, IsoFormat).value.0 == a
    requires parse(endDate, IsoFormat).Some? && parse(endDate, IsoFormat).value.0 == a + d
    requires d == 0 || d % 133590 != 0
    ensures Clean(Timeseries(startDate, endDate, parse, strftime, service), parse, a, a + d)
  {
    PlanNoDuplicates(a, d, parse, strftime, service);
    TimeseriesPlan(startDate, endDate, parse, strftime, service, a, d);
  }

  /** When d is a positive multiple of 365 * 366, a faithful service serves
      every planned window but the last, which fails the assertion. */
  lemma PlanOverlong(a: int, d: nat, parse: Parser, strftime: Formatter, service: Service)
    requires IsoPair(parse, strftime) && Faithful(service, parse, strftime)
    requires d >= 1 && d % 133590 == 0
    ensures var windows := IsoWindows(strftime, Plan(a, d));
            && |windows| >= 1
            && (forall i :: 0 <= i < |windows| - 1 ==> FetchWindow(windows[i].0, windows[i].1, parse, service).Ok?)
            && FetchAll(windows, parse, service)
               == Outcome(RowsBefore(windows, |windows| - 1, parse, service), Some(AssertionError))
  {
    var w := Plan(a, d);
    var windows := IsoWindows(strftime, w);
    PlanPartition(a, d);
    PlanSpans(a, d);
    forall i | 0 <= i < |windows|
      ensures i < |windows| - 1 ==> FetchWindow(windows[i].0, windows[i].1, parse, service).Ok?
      ensures i == |windows| - 1 ==> FetchWindow(windows[i].0, windows[i].1, parse, service) == Err(AssertionError)
    {
      FetchIso(w[i].0, w[i].1, parse, strftime, service);
      if i < |windows| - 1 {
        assert Answers(service(IsoText(strftime, w[i].0), IsoText(strftime, w[i].1)), parse, w[i].0, w[i].1);
      }
    }
    FetchAllStops(windows, |windows| - 1, parse, service);
  }

  /** The counterexample end to end: for ISO dates naming the days a and
      a + d, d a positive multiple of 365 * 366, even a faithful service
      cannot save the stream: it stops with the assertion's failure. */
  lemma TimeseriesOverlong(startDate: string, endDate: string,
                           parse: Parser, strftime: Formatter, service: Service, a: int, d: nat)
    requires IsoPair(parse, strftime) && Faithful(service, parse, strftime)
    requires parse(startDate, IsoFormat).Some? && parse(startDate, IsoFormat).value.0 == a
    requires parse(endDate, IsoFormat).Some? && parse(endDate, IsoFormat).value.0 == a + d
    requires d >= 1 && d % 133590 == 0
    ensures Timeseries(startDate, endDate, parse, strftime, service).failure == Some(AssertionError)
  {
    PlanOverlong(a, d, parse, strftime, service);
    TimeseriesPlan(startDate, endDate, parse, strftime, service, a, d);
  }
}
