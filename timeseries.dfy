/** `get_exr_timeseries` and its inner `get_exr_366_days`: fetch the rows of a
    date range window by window from the exchange-rate service and yield them
    as one stream. The service is a parameter of the model; so are strptime
    and strftime. */
module ExchangeRates {
  import opened Base
  import opened Dates
  import opened DateRanges
  import opened Partition
  import opened Lookahead
  import opened Windows

  /** One currency's rate on one date; the date is the key text the service
      answered with. */
  datatype ExchangeRow = ExchangeRow(date: string, currency: string, rate: real)

  /** The "rates" member of a response body, members in the order they
      arrive: each date key with its currency-rate members. */
  type Rates = seq<(string, seq<(string, real)>)>

  /** A response: a non-success status, or a JSON body that may lack "rates". */
  datatype Response = Failure | Body(rates: Option<Rates>)

  /** The service: its response to a request for the window from the first
      value to the second, as they are written into the query. */
  type Service = (DateLike, DateLike) -> Response

  /** What a generator of rows does when drained: the rows it yields, then
      the exception it stops with, if any. */
  datatype Outcome = Outcome(rows: seq<ExchangeRow>, failure: Option<Error>)

  /** Rows yielded before the stream continues with `o`. */
  function Prepend(rows: seq<ExchangeRow>, o: Outcome): Outcome {
    Outcome(rows + o.rows, o.failure)
  }

  /** The rows of one date key, currency by currency. */
  function RowsOf(date: string, currencies: seq<(string, real)>): seq<ExchangeRow> {
    seq(|currencies|, j requires 0 <= j < |currencies| =>
          ExchangeRow(date, currencies[j].0, currencies[j].1))
  }

  /** The rows of the nested loops over "rates", date key by date key. */
  function Flatten(rates: Rates): (r: seq<ExchangeRow>)
    ensures forall k :: 0 <= k < |r| ==> r[k].date in Keys(rates)
  {
    if rates == [] then []
    else
      var init, last := rates[..|rates| - 1], rates[|rates| - 1];
      var front, back := Flatten(init), RowsOf(last.0, last.1);
      assert Keys(rates) == Keys(init) + {last.0};
      assert forall k :: |front| <= k < |front + back| ==> (front + back)[k] == back[k - |front|];
      front + back
  }

  /** The number of (date, currency) entries of a "rates" member. */
  function Count(rates: Rates): nat {
    if rates == [] then 0 else Count(rates[..|rates| - 1]) + |rates[|rates| - 1].1|
  }

  /** The rows are the entries of "rates": one row per (date key, currency)
      entry, and every entry appears as a row. */
  lemma {:induction false} FlattenEntries(rates: Rates)
    ensures |Flatten(rates)| == Count(rates)
    ensures forall i, j :: 0 <= i < |rates| && 0 <= j < |rates[i].1| ==>
              ExchangeRow(rates[i].0, rates[i].1[j].0, rates[i].1[j].1) in Flatten(rates)
    decreases |rates|
  {
    if rates != [] {
      var init, last := rates[..|rates| - 1], rates[|rates| - 1];
      FlattenEntries(init);
      var front, back := Flatten(init), RowsOf(last.0, last.1);
      assert Flatten(rates) == front + back;
      forall i, j | 0 <= i < |rates| && 0 <= j < |rates[i].1|
        ensures ExchangeRow(rates[i].0, rates[i].1[j].0, rates[i].1[j].1) in front + back
      {
        if i < |init| {
          assert init[i] == rates[i];
        } else {
          assert back[j] == ExchangeRow(rates[i].0, rates[i].1[j].0, rates[i].1[j].1);
        }
      }
    }
  }

  /** What the fetch makes of a response once the window passed its assertion. */
  function Respond(response: Response): (r: Result<seq<ExchangeRow>>)
    ensures r.Ok? <==> response.Body? && response.rates.Some?
    ensures r.Err? ==> (r.error == HttpError <==> response.Failure?)
    ensures r.Err? ==> (r.error == ValueError <==> response.Body?)
    ensures r.Ok? ==> r.value == Flatten(response.rates.value)
  {
    match response
    case Failure() => Err(HttpError)
    case Body(None) => Err(ValueError)
    case Body(Some(rates)) => Ok(Flatten(rates))
  }

  /** `get_exr_366_days(start, end)`: both ends normalised with the ISO
      pattern, end first; a window of more than 365 days fails the
      assertion before any request; otherwise the service is asked. */
  function FetchWindow(start: DateLike, end: DateLike, parse: Parser, service: Service): (r: Result<seq<ExchangeRow>>)
    ensures r.Ok? ==>
              && AsDate(start, Some(IsoFormat), parse).Ok? && AsDate(end, Some(IsoFormat), parse).Ok?
              && DaysBetween(AsDate(start, Some(IsoFormat), parse).value, AsDate(end, Some(IsoFormat), parse).value).Ok?
              && DaysBetween(AsDate(start, Some(IsoFormat), parse).value, AsDate(end, Some(IsoFormat), parse).value).value <= 365
              && r == Respond(service(start, end))
    ensures AsDate(end, Some(IsoFormat), parse).Err? ==> r == Err(AsDate(end, Some(IsoFormat), parse).error)
    ensures AsDate(end, Some(IsoFormat), parse).Ok? && AsDate(start, Some(IsoFormat), parse).Err? ==>
              r == Err(AsDate(start, Some(IsoFormat), parse).error)
    ensures AsDate(start, Some(IsoFormat), parse).Ok? && AsDate(end, Some(IsoFormat), parse).Ok? ==>
              var days := DaysBetween(AsDate(start, Some(IsoFormat), parse).value, AsDate(end, Some(IsoFormat), parse).value);
              r == if days.Err? then Err(days.error)
                   else if days.value > 365 then Err(AssertionError)
                   else Respond(service(start, end))
  {
    var e :- AsDate(end, Some(IsoFormat), parse);
    var s :- AsDate(start, Some(IsoFormat), parse);
    var days :- DaysBetween(s, e);
    if days > 365 then Err(AssertionError) else Respond(service(start, end))
  }

  /** The fetch as the generator runs it, the rows gathered by its two loops. */
  method GetExrWindow(start: DateLike, end: DateLike, parse: Parser, service: Service)
    returns (r: Result<seq<ExchangeRow>>)
    ensures r == FetchWindow(start, end, parse, service)
  {
    var e :- AsDate(end, Some(IsoFormat), parse);
    var s :- AsDate(start, Some(IsoFormat), parse);
    var days :- DaysBetween(s, e);
    if days > 365 {
      return Err(AssertionError);
    }
    var response := service(start, end);
    if response.Failure? {
      return Err(HttpError);
    }
    if response.rates.None? {
      return Err(ValueError);
    }
    var rates := response.rates.value;
    var rows: seq<ExchangeRow> := [];
    var i := 0;
    while i < |rates|
      invariant 0 <= i <= |rates|
      invariant rows == Flatten(rates[..i])
    {
      var date, currencies := rates[i].0, rates[i].1;
      var j := 0;
      while j < |currencies|
        invariant 0 <= j <= |currencies|
        invariant rows == Flatten(rates[..i]) + RowsOf(date, currencies[..j])
      {
        rows := rows + [ExchangeRow(date, currencies[j].0, currencies[j].1)];
        j := j + 1;
      }
      assert currencies[..j] == currencies;
      assert rates[..i + 1][..i] == rates[..i];
      i := i + 1;
    }
    assert rates[..i] == rates;
    return Ok(rows);
  }

  /** The date keys of a "rates" member. */
  function Keys(rates: Rates): set<string> {
    set i | 0 <= i < |rates| :: rates[i].0
  }

  predicate DistinctKeys(rates: Rates) {
    forall i, j :: 0 <= i < j < |rates| ==> rates[i].0 != rates[j].0
  }

  predicate DistinctCurrencies(currencies: seq<(string, real)>) {
    forall i, j :: 0 <= i < j < |currencies| ==> currencies[i].0 != currencies[j].0
  }

  /** No two rows share a date and a currency. */
  predicate RowsDistinct(rows: seq<ExchangeRow>) {
    forall k, l :: 0 <= k < l < |rows| ==>
      rows[k].date != rows[l].date || rows[k].currency != rows[l].currency
  }

  /** A "rates" member as a JSON object delivers it: distinct date keys, and
      distinct currencies under each. */
  predicate WellFormed(rates: Rates) {
    DistinctKeys(rates) && forall i :: 0 <= i < |rates| ==> DistinctCurrencies(rates[i].1)
  }

  /** Flattening keeps every row's date among the keys, and a well-formed
      member yields no (date, currency) twice. */
  lemma {:induction false} FlattenDistinct(rates: Rates)
    requires WellFormed(rates)
    ensures RowsDistinct(Flatten(rates))
    ensures forall k :: 0 <= k < |Flatten(rates)| ==> Flatten(rates)[k].date in Keys(rates)
    decreases |rates|
  {
    if rates != [] {
      var init, last := rates[..|rates| - 1], rates[|rates| - 1];
      assert WellFormed(init);
      FlattenDistinct(init);
      var front: seq<ExchangeRow>, back: seq<ExchangeRow> := Flatten(init), RowsOf(last.0, last.1);
      assert Flatten(rates) == front + back;
      assert Keys(rates) == Keys(init) + {last.0};
      assert last.0 !in Keys(init);
      forall k, l | 0 <= k < l < |front + back|
        ensures (front + back)[k].date != (front + back)[l].date
             || (front + back)[k].currency != (front + back)[l].currency
      {
        if l >= |front| {
          assert (front + back)[l] == back[l - |front|];
          if k < |front| {
            assert front[k].date in Keys(init);
          }
        }
      }
    }
  }

  /** `n_cuts`: the number of pairs asked for, ends normalised end first. */
  function NCuts(startDate: string, endDate: string, parse: Parser): (r: Result<nat>)
    ensures r.Ok? <==> parse(startDate, IsoFormat).Some? && parse(endDate, IsoFormat).Some?
    ensures r.Err? ==> r.error == ValueError
    ensures r.Ok? ==>
              var days := Abs(DaysBetween(AsDate(Text(startDate), Some(IsoFormat), parse).value,
                                          AsDate(Text(endDate), Some(IsoFormat), parse).value).value);
              && r.value * 365 >= days
              && (r.value > 0 ==> (r.value - 1) * 365 < days)
              && (r.value == 0 <==> days == 0)
  {
    var e :- AsDate(Text(endDate), Some(IsoFormat), parse);
    var s :- AsDate(Text(startDate), Some(IsoFormat), parse);
    // both ends are text, so both are datetimes and subtract
    Ok(CeilDiv(Abs(DaysBetween(s, e).value), 365))
  }

  /** The end requested for a pair: the pair's end, one day earlier unless it
      is the last pair, rendered in ISO form. */
  function ShiftedEnd(end: DateLike, isLast: bool, parse: Parser, strftime: Formatter): (r: Result<DateLike>)
    ensures r.Ok? <==> AsDate(end, Some(IsoFormat), parse).Ok?
    ensures r.Err? ==> r.error == AsDate(end, Some(IsoFormat), parse).error
    ensures r.Ok? ==>
              var e := AsDate(end, Some(IsoFormat), parse).value;
              r.value == Text(strftime(e.day - (if isLast then 0 else 1), TimeOfDay(e), IsoFormat))
  {
    var e :- AsDate(end, Some(IsoFormat), parse);
    var dayOffset := if isLast then 0 else 1;
    Ok(Text(Strftime(AddDays(e, -dayOffset), IsoFormat, strftime)))
  }

  /** One pass of the loop body: shift the end, then fetch. */
  function FetchPair(start: DateLike, end: DateLike, isLast: bool,
                     parse: Parser, strftime: Formatter, service: Service): Result<seq<ExchangeRow>> {
    var shifted :- ShiftedEnd(end, isLast, parse, strftime);
    FetchWindow(start, shifted, parse, service)
  }

  /** The loop over the tagged pairs: the rows of each pass in order, until a
      pass raises. */
  function Drain(tagged: seq<((DateLike, DateLike), bool)>,
                 parse: Parser, strftime: Formatter, service: Service): (o: Outcome)
    ensures o.failure == None <==>
              forall i :: 0 <= i < |tagged| ==> FetchPair(tagged[i].0.0, tagged[i].0.1, tagged[i].1, parse, strftime, service).Ok?
    decreases |tagged|
  {
    if tagged == [] then Outcome([], None)
    else
      match FetchPair(tagged[0].0.0, tagged[0].0.1, tagged[0].1, parse, strftime, service)
      case Err(e) => Outcome([], Some(e))
      case Ok(rows) =>
        assert forall i :: 0 <= i < |tagged| - 1 ==> tagged[1..][i] == tagged[i + 1];
        Prepend(rows, Drain(tagged[1..], parse, strftime, service))
  }

  /** One pass of the loop over the tagged pairs from position i. */
  lemma DrainStep(tagged: seq<((DateLike, DateLike), bool)>, i: nat,
                  parse: Parser, strftime: Formatter, service: Service)
    requires i < |tagged|
    ensures Drain(tagged[i..], parse, strftime, service)
            == match FetchPair(tagged[i].0.0, tagged[i].0.1, tagged[i].1, parse, strftime, service)
               case Err(e) => Outcome([], Some(e))
               case Ok(rows) => Prepend(rows, Drain(tagged[i + 1..], parse, strftime, service))
  {
    assert tagged[i..][0] == tagged[i] && tagged[i..][1..] == tagged[i + 1..];
  }

  /** The pass from position i, given its shifted end and, once that exists,
      what fetching the window gave. */
  lemma PassStep(tagged: seq<((DateLike, DateLike), bool)>, i: nat,
                 parse: Parser, strftime: Formatter, service: Service,
                 shifted: Result<DateLike>, fetched: Result<seq<ExchangeRow>>)
    requires i < |tagged|
    requires shifted == ShiftedEnd(tagged[i].0.1, tagged[i].1, parse, strftime)
    requires shifted.Ok? ==> fetched == FetchWindow(tagged[i].0.0, shifted.value, parse, service)
    ensures shifted.Err? ==> Drain(tagged[i..], parse, strftime, service) == Outcome([], Some(shifted.error))
    ensures shifted.Ok? && fetched.Err? ==>
              Drain(tagged[i..], parse, strftime, service) == Outcome([], Some(fetched.error))
    ensures shifted.Ok? && fetched.Ok? ==>
              Drain(tagged[i..], parse, strftime, service)
              == Prepend(fetched.value, Drain(tagged[i + 1..], parse, strftime, service))
  {
    DrainStep(tagged, i, parse, strftime, service);
  }

  /** `get_exr_timeseries(start_date, end_date)` drained. */
  function Timeseries(startDate: string, endDate: string,
                      parse: Parser, strftime: Formatter, service: Service): (o: Outcome)
    ensures parse(startDate, IsoFormat).None? || parse(endDate, IsoFormat).None? ==>
              o == Outcome([], Some(ValueError))
    ensures NCuts(startDate, endDate, parse) == Ok(0) ==> o == Outcome([], None)
  {
    match NCuts(startDate, endDate, parse)
    case Err(e) => Outcome([], Some(e))
    case Ok(n) =>
      match GenerateDatePairs(Text(startDate), Text(endDate), n, parse, strftime)
      case Err(e) => Outcome([], Some(e))
      case Ok(pairs) => Drain(TagLast(pairs), parse, strftime, service)
  }

  /** The generator's loop: each tagged pair is shifted and fetched, its rows
      appended, and the first exception ends the stream. */
  method FetchPairs(tagged: seq<((DateLike, DateLike), bool)>,
                    parse: Parser, strftime: Formatter, service: Service)
    returns (out: Outcome)
    ensures out == Drain(tagged, parse, strftime, service)
  {
    var rows: seq<ExchangeRow> := [];
    var i := 0;
    while i < |tagged|
      invariant 0 <= i <= |tagged|
      invariant Drain(tagged, parse, strftime, service)
                == Prepend(rows, Drain(tagged[i..], parse, strftime, service))
    {
      var (pair, isLast) := tagged[i];
      var shifted := ShiftedEnd(pair.1, isLast, parse, strftime);
      if shifted.Err? {
        PassStep(tagged, i, parse, strftime, service, shifted, Ok([]));
        return Outcome(rows, Some(shifted.error));
      }
      var fetched := GetExrWindow(pair.0, shifted.value, parse, service);
      PassStep(tagged, i, parse, strftime, service, shifted, fetched);
      if fetched.Err? {
        return Outcome(rows, Some(fetched.error));
      }
      rows := rows + fetched.value;
      i := i + 1;
    }
    return Outcome(rows, None);
  }

  /** `get_exr_timeseries(start_date, end_date)`: `n_cuts`, the date pairs
      tagged by `zip_is_last`, then the loop over them. */
  method GetExrTimeseries(startDate: string, endDate: string,
                          parse: Parser, strftime: Formatter, service: Service)
    returns (out: Outcome)
    ensures out == Timeseries(startDate, endDate, parse, strftime, service)
  {
    var cuts := NCuts(startDate, endDate, parse);
    if cuts.Err? {
      return Outcome([], Some(cuts.error));
    }
    var pairs := GenerateDatePairs(Text(startDate), Text(endDate), cuts.value, parse, strftime);
    if pairs.Err? {
      return Outcome([], Some(pairs.error));
    }
    var tagged := ZipIsLast(pairs.value);
    out := FetchPairs(tagged, parse, strftime, service);
  }
}
