# tap-exchangerate: a verified model of the time-series fetch

The package reads exchange rates from a web service that answers at most 366
days per request. `get_exr_timeseries(start_date, end_date)` works in five steps:

1. It cuts the date range into at most `n_cuts = ceil(|days| / 365)` pairs of sampled dates.
2. It tags the last pair.
3. It moves the end of every pair but the last back one day, so adjacent
   windows do not share a day.
4. It fetches each window.
5. It yields the rows `ExchangeRow(date, currency, rate)` of all windows, in
   order, as one stream.

This project models that pipeline in Dafny and proves what it delivers:

- For an ascending range of at least two days, the requested windows
  partition the range: they are non-empty, disjoint and in order, and they
  cover every day exactly once. A one-day range has `n_cuts = 0`: it requests
  no window and yields no row. Descending ranges are covered by no lemma.
- Every window except the last passes the fetch's 365-day assertion.
- The last window passes too, except when the range spans a positive multiple
  of 365 · 366 = 133590 days. In that case the stream fails, and the model
  states this case as a lemma.
- Take an ascending range of ISO dates whose length in days is not a positive
  multiple of 133590, and a service that answers each window of at most 365
  days with rates for that window's dates only. Then the stream ends normally,
  holds no (date, currency) twice, and dates every row inside the range.

Layout, one module per file, following the source's functions:

| file | module | source function |
|---|---|---|
| `base.dfy` | `Base` | `Option`, the exceptions (`Error`), `Result`, and `ceil(a / b)` as `CeilDiv` |
| `dates.dfy` | `Dates` | `as_date` and the `datetime` arithmetic it needs |
| `date_range.dfy` | `DateRanges` | `generate_date_range` (a function, and a method with the loop) |
| `partition.dfy` | `Partition` | `generate_item_pairs` and `generate_date_pairs` |
| `lookahead.dfy` | `Lookahead` | `zip_is_last` (a function, and a method with the lookahead loop) |
| `windows.dfy` | `Windows` | the windows requested for an ascending range, on day ordinals |
| `timeseries.dfy` | `ExchangeRates` | `get_exr_366_days` and `get_exr_timeseries` (functions, and methods with their loops) |
| `stitching.dfy` | `Stitching` | the end-to-end results: the stream is the plan fetched in order, deduplication, and the counterexample |

Modelling conventions:

- **Dates.** A date is an integer day ordinal. A `datetime` is a day ordinal
  plus a second of that day.
- **Parsing and formatting.** `strptime` and `strftime` are function
  parameters (`Parser`, `Formatter`). The lemmas about ISO dates assume only
  `IsoPair`, which says two things:
  - Text matching `%Y-%m-%d` denotes midnight.
  - Formatting a day and parsing the text back gives that day.
- **The service.** The web service is a parameter (`Service`). It answers a
  request with a failure status, or with a body that may lack `"rates"`.
  `"rates"` is a sequence of date keys, each with its currency-rate pairs.
  These are the members of the JSON object in the order they arrive.
- **Streams.** A drained generator is an `Outcome`: the rows it yielded, and
  then the exception it stopped with, if any.
- **Following the code where the docstring disagrees.** The docstring at
  `tap_exchangerate/__init__.py:53` says that a start after the end yields no
  dates. The code walks backward instead, with `step = -1`. The model follows
  the code.
- **Empty input to `generate_item_pairs`.** With `n >= 1` and an empty input,
  the slice step `ceil(0 / n)` is zero and Python raises `ValueError`. The
  model states that error rather than excluding the case.

## Model

| member | source | states |
|---|---|---|
| Base.CeilDiv | tap_exchangerate/__init__.py:139 | the result is the least count whose multiple of b reaches a, and it is zero exactly when a is |
| Dates.AsDate | tap_exchangerate/__init__.py:27-37 | a datetime loses its time; a date is returned as it is; text is parsed with the pattern into a datetime; text without a pattern raises TypeError; unparsable text and every other type raise ValueError; success happens exactly in those accepted cases |
| Dates.LessEq | tap_exchangerate/__init__.py:69 | a date and a datetime cannot be compared (TypeError); otherwise the comparison is that of the two instants, day and second of the day: an earlier day compares below a later one, and on the same day the time of day decides |
| Dates.DaysBetween | tap_exchangerate/__init__.py:71 | `(end - start).days` is defined exactly for two values of the same kind, and subtracting a date from a datetime raises TypeError; it is non-negative exactly when start <= end, it is the whole number of days in the difference of the two instants, rounded down, and so the difference of the days when the times of day agree |
| Dates.AddDays | tap_exchangerate/__init__.py:73 | adding k days keeps the kind and the time of day and puts the result exactly k days after the start |
| Dates.AsDateTwice | tap_exchangerate/__init__.py:27-35 | normalising an accepted value again yields a plain date of the same day; text first becomes a datetime, not a date |
| Dates.IsoRoundTrip | tap_exchangerate/__init__.py:145-147 | under the ISO pair, the ISO text of a date normalises back to midnight of that date |
| DateRanges.PyRange | tap_exchangerate/__init__.py:71 | `range(0, stop, step)` for a step of 1 or -1 holds abs(stop) offsets when step and stop share a sign, and none otherwise; the i-th offset is i·step |
| DateRanges.Walk | tap_exchangerate/__init__.py:69-76 | the loop over two normalised ends succeeds exactly when they are of the same kind, and otherwise raises TypeError from the comparison; it holds abs(days) + 1 dates and starts at the start (its elements are stated by DateRanges.WalkElements and DateRanges.WalkShape) |
| DateRanges.DateRange | tap_exchangerate/__init__.py:48-76 | a produced range holds at least one date and starts at the normalised start (its shape and errors are stated by DateRanges.DateRangeWalk) |
| DateRanges.WalkElements | tap_exchangerate/__init__.py:69-76 | between ends of the same kind, the range holds abs(days) + 1 dates, and the k-th lies k days from the start toward the end |
| DateRanges.WalkShape | tap_exchangerate/__init__.py:69-76 | the range has abs(end − start) + 1 elements; the step is forward exactly when start <= end; the first element is the start; each element moves one day toward the end; the last element is the end when both share a time of day |
| DateRanges.DateRangeWalk | tap_exchangerate/__init__.py:67-69 | the range is produced exactly when both ends normalise to the same kind; otherwise it raises the error of the start's normalisation, then of the end's, then TypeError from the comparison |
| DateRanges.WalkOfDates | tap_exchangerate/__init__.py:71-76 | any sequence of abs(days) + 1 dates, the k-th lying k days toward the end, is the range |
| DateRanges.GenerateDateRange | tap_exchangerate/__init__.py:48-76 | the loop yields exactly the range, or raises exactly the range's exception |
| Partition.Every | tap_exchangerate/__init__.py:89 | `items[::s]` holds ceil(len / s) items, and the j-th is the item at index j·s |
| Partition.ItemPairs | tap_exchangerate/__init__.py:84-93 | n = 0 yields no pairs; an empty input with n >= 1 raises ValueError; a one-item input yields no pairs; a non-empty input succeeds; there are at most n pairs; the pairs chain, the second item of each being the first of the next |
| Partition.Samples | tap_exchangerate/__init__.py:89 | the sampled indices are the multiples of the stride below the length, ceil(len / s) of them |
| Partition.SamplesStep | tap_exchangerate/__init__.py:89 | consecutive samples lie one stride apart, and the last lies within a stride of the end |
| Partition.SamplesCount | tap_exchangerate/__init__.py:89 | a stride of ceil(len / n) takes at most n samples |
| Partition.PointsShape | tap_exchangerate/__init__.py:89-91 | the paired indices start at 0 and end at the final index; they rise strictly, by at most one stride; there are at most n + 1 of them, and at least two for two items; the last gap is a whole stride exactly when the final index was sampled |
| Partition.PointsCount | tap_exchangerate/__init__.py:89-91 | there are at least two paired indices once the input has two items, and at most n + 1 |
| Partition.PointsInRange | tap_exchangerate/__init__.py:89-91 | every paired index lies inside the input |
| Partition.ItemPairsAtPoints | tap_exchangerate/__init__.py:89-93 | on distinct items, the test "final item not in the samples" is the test "final index not sampled", so the pairs join the items at adjacent paired indices |
| Partition.ItemPairsSpan | tap_exchangerate/__init__.py:89-93 | on at least two distinct items with n >= 1: between 1 and n pairs; the first starts at the first item and the last ends at the final item; each pair joins two paired indices at most ceil(len / n) apart |
| Partition.ItemPairsExample | tap_exchangerate/__init__.py:82 | the docstring's example [0..9] cut three ways gives (0, 4), (4, 8), (8, 9) |
| Partition.IsoTextsDistinct | tap_exchangerate/__init__.py:71-76 | under the ISO pair, the ISO texts of consecutive days are pairwise different |
| Partition.WalkIso | tap_exchangerate/__init__.py:71-76 | the range between midnights of days a <= b, rendered in ISO form, is the ISO texts of days a through b |
| Partition.IsoDates | tap_exchangerate/__init__.py:67-76 | ISO text naming days a <= b yields b − a + 1 distinct dates, the ISO texts of days a through b |
| Partition.DatePairsOfRange | tap_exchangerate/__init__.py:96-99 | with n >= 1, the date pairs are the item pairs of the whole date range |
| Partition.GenerateDatePairs | tap_exchangerate/__init__.py:96-99 | n = 0 yields no pairs without reading the range; with n >= 1 the pairs exist exactly when the date range does, and the range's exception is raised otherwise; at most n pairs, chained end to start (their values on ISO dates are stated by Partition.DatePairsIso) |
| Partition.ItemPairsOfDays | tap_exchangerate/__init__.py:89-93 | the pairs of the ISO texts of consecutive days join the days at the paired indices |
| Partition.DatePairsIso | tap_exchangerate/__init__.py:96-99 | for ISO dates a <= b and n >= 1, the date pairs join the ISO texts of the days at the paired indices of the b − a + 1 days |
| Lookahead.TagLastTail | tap_exchangerate/__init__.py:111-120 | the flag depends only on the distance to the end: tagging the tail is the tail of the tagging, and the head is flagged exactly when it is alone |
| Lookahead.TagLast | tap_exchangerate/__init__.py:102-120 | the tagging keeps the length and every element in order, and flags exactly the final one |
| Lookahead.ZipIsLast | tap_exchangerate/__init__.py:102-120 | the loop keeps the length and the elements, in order; exactly the final element is flagged; an empty input gives an empty output |
| Windows.ShiftedCover | tap_exchangerate/__init__.py:141-147 | for rising endpoints, the windows with the end of all but the last moved back a day name every day from the first endpoint to the last exactly once, in order |
| Windows.ShiftedOrdered | tap_exchangerate/__init__.py:141-147 | those windows are one fewer than the endpoints, non-empty, pairwise disjoint and in order, and they start at the first endpoint and end at the last |
| Windows.EndpointsRising | tap_exchangerate/__init__.py:139-141 | the pair endpoints of a range from day a to day a + d >= a + 1 start at a, end at a + d, rise strictly and number at most n_cuts + 1 |
| Windows.Plan | tap_exchangerate/__init__.py:139-147 | a single-day range requests no window; a longer one between 1 and n_cuts windows (the partition and the spans are stated by Windows.PlanPartition and Windows.PlanSpans) |
| Windows.ShiftedOffset | tap_exchangerate/__init__.py:144-147 | the i-th window joins the days at points i and i + 1, its end one day earlier unless it is the last |
| Windows.PlanAt | tap_exchangerate/__init__.py:139-147 | the requested windows of an ascending range join the days at the paired indices of the range, each end but the last moved back a day |
| Windows.PlanPartition | tap_exchangerate/__init__.py:139-147 | a single-day range requests nothing; otherwise between 1 and n_cuts windows, non-empty, disjoint and in order, from the first day to the last, naming every day of the range exactly once |
| Windows.StrideBound | tap_exchangerate/__init__.py:89 | the stride over the d + 1 dates of the range is between 1 and 366, and it is 366 exactly when d is a multiple of 365 |
| Windows.FinalSampledMod | tap_exchangerate/__init__.py:91 | the final date is itself a sample exactly when the stride divides its index |
| Windows.PointGaps | tap_exchangerate/__init__.py:89-91 | the paired indices of a range lie at most one stride apart, and the last gap is a whole stride exactly when the stride divides d |
| Windows.PlanSpans | tap_exchangerate/__init__.py:126 | every window but the last spans at most 365 days; the last spans at most 366, and more than 365 exactly when d is a multiple of 133590 |
| Windows.LongestLastWindow | tap_exchangerate/__init__.py:139-147 | a range of 133590 days is cut into 365 windows, the last running from day a + 133224 to day a + 133590 |
| ExchangeRates.GetExrWindow | tap_exchangerate/__init__.py:124-137 | the fetch's loops yield exactly what the window's function gives: a window over 365 days fails the assertion before any request; a failure status raises; a body without "rates" raises ValueError; otherwise the rows come date key by date key, currency by currency |
| ExchangeRates.FetchWindow | tap_exchangerate/__init__.py:124-137 | the end is normalised first and its error raised; then the start's; then subtracting them; a window of more than 365 days raises AssertionError before any request; otherwise the result is exactly what the response gives |
| ExchangeRates.Respond | tap_exchangerate/__init__.py:130-137 | `raise_for_status` gives HttpError exactly for a failure status; a body without "rates" gives ValueError; a body with "rates" yields exactly the flattened rows of that member |
| ExchangeRates.Flatten | tap_exchangerate/__init__.py:132-135 | every row's date is one of the date keys of "rates" (the rows are the entries: ExchangeRates.FlattenEntries; no duplication on a well-formed member: ExchangeRates.FlattenDistinct) |
| ExchangeRates.FlattenEntries | tap_exchangerate/__init__.py:132-135 | there is one row per (date key, currency) entry of "rates", and every entry appears as the row ExchangeRow(date key, currency, rate) |
| ExchangeRates.FlattenDistinct | tap_exchangerate/__init__.py:132-135 | each row's date is one of the response's date keys, and a well-formed "rates" member never yields the same (date, currency) twice |
| ExchangeRates.FetchPairs | tap_exchangerate/__init__.py:141-148 | the loop over the tagged pairs yields, pass by pass, the rows of each shifted window until the first exception, as the stream's function says |
| ExchangeRates.Drain | tap_exchangerate/__init__.py:141-148 | the stream over the tagged pairs ends normally exactly when every pass (shift, then fetch) succeeds (the rows before a failure are stated by Stitching.FetchAllStops) |
| ExchangeRates.NCuts | tap_exchangerate/__init__.py:139 | n_cuts exists exactly when both ends parse as ISO dates, and ValueError is raised otherwise; it is the fewest 365-day cuts covering the day difference, and zero exactly when the difference is |
| ExchangeRates.ShiftedEnd | tap_exchangerate/__init__.py:144-147 | the requested end exists exactly when the pair's end normalises, raising its error otherwise; it is the ISO text of that day, one day earlier unless the pair is last |
| ExchangeRates.Timeseries | tap_exchangerate/__init__.py:123-148 | an unparsable start or end yields no row and ValueError; n_cuts = 0 yields an empty stream that ends normally (its shape for ascending ISO ranges is stated by Stitching.TimeseriesPlan) |
| ExchangeRates.GetExrTimeseries | tap_exchangerate/__init__.py:123-148 | the generator yields exactly the time series: n_cuts, then the date pairs tagged by zip_is_last, then the loop; an exception in computing n_cuts or the pairs ends the stream before any row |
| Stitching.FetchAllStops | tap_exchangerate/__init__.py:141-148 | the stream holds the rows of every window before the first failing one, in fetch order, then stops with that window's exception; with no failing window it holds all rows and ends normally |
| Stitching.DrainFetchAll | tap_exchangerate/__init__.py:141-148 | draining tagged pairs whose starts and shifted ends are a list of windows is fetching those windows in order |
| Stitching.FetchIso | tap_exchangerate/__init__.py:126-130 | a window of ISO dates spanning more than 365 days raises AssertionError; otherwise the service's response decides |
| Stitching.ShiftIso | tap_exchangerate/__init__.py:144-147 | the requested end of a pair ending on an ISO day is the ISO text of the day before, or of the same day on the last pair |
| Stitching.NCutsIso | tap_exchangerate/__init__.py:139 | for ISO dates a <= b, n_cuts is ceil((b − a) / 365) |
| Stitching.TaggedAt | tap_exchangerate/__init__.py:141 | the i-th tagged pair joins the ISO days at points i and i + 1, and it is flagged exactly when it is the last |
| Stitching.PairMatchesWindow | tap_exchangerate/__init__.py:144-147 | the i-th tagged pair starts where the i-th window does, and its shifted end is that window's end |
| Stitching.PairsMatchWindows | tap_exchangerate/__init__.py:141-147 | every tagged pair starts where its window does, and its shifted end is that window's end |
| Stitching.DrainJoined | tap_exchangerate/__init__.py:141-148 | draining the tagged pairs at given points is fetching the windows that join those points |
| Stitching.DrainPlan | tap_exchangerate/__init__.py:141-148 | draining the tagged date pairs of a range is fetching its planned windows in order |
| Stitching.TimeseriesPairs | tap_exchangerate/__init__.py:139-141 | for ISO dates d >= 1 days apart, the stream drains the tagged ISO date pairs at the paired indices of the range |
| Stitching.TimeseriesRange | tap_exchangerate/__init__.py:139-148 | for ISO dates d >= 1 days apart, the stream is the planned windows fetched in order |
| Stitching.TimeseriesSingleDay | tap_exchangerate/__init__.py:84-85 | equal ISO start and end dates give n_cuts = 0, so nothing is fetched and the stream is empty and ends normally |
| Stitching.TimeseriesEmpty | tap_exchangerate/__init__.py:139 | a single-day range streams exactly what its empty plan does |
| Stitching.TimeseriesPlan | tap_exchangerate/__init__.py:123-148 | for ISO dates naming days a and a + d, the stream is the planned windows of the range fetched in order, its rows window by window |
| Stitching.FlattenWithin | tap_exchangerate/__init__.py:132-135 | a well-formed "rates" member whose keys lie in [lo, hi] yields distinct rows dated in [lo, hi] |
| Stitching.FetchFaithful | tap_exchangerate/__init__.py:124-135 | with a faithful service, a window of at most 365 days is fetched without error and yields distinct rows dated inside it |
| Stitching.AppendDistinct | tap_exchangerate/__init__.py:145-148 | the rows of one window followed by rows dated after it stay distinct and lie within the union of the two spans |
| Stitching.FetchAllDistinct | tap_exchangerate/__init__.py:141-148 | non-empty windows of at most 365 days, strictly ordered, fetched from a faithful service: the stream ends normally, holds no (date, currency) twice, and every row lies between the first start and the last end |
| Stitching.SpreadPlanClean | tap_exchangerate/__init__.py:141-148 | the planned windows of a range of d >= 1 days, d not a multiple of 133590, stream cleanly from a faithful service |
| Stitching.PlanNoDuplicates | tap_exchangerate/__init__.py:139-148 | the planned windows of any ascending range except a positive multiple of 133590 days stream cleanly from a faithful service: they end normally with no (date, currency) twice, every row dated in the range |
| Stitching.TimeseriesNoDuplicates | tap_exchangerate/__init__.py:123-148 | deduplication end to end: for ISO dates naming days a and a + d, d not a positive multiple of 133590, a faithful service makes the stream end normally, with no (date, currency) twice and every row dated in [a, a + d] |
| Stitching.PlanOverlong | tap_exchangerate/__init__.py:126 | when d is a positive multiple of 133590, a faithful service serves every planned window but the last; the stream holds their rows and then stops with AssertionError |
| Stitching.TimeseriesOverlong | tap_exchangerate/__init__.py:139-148 | for ISO dates d days apart, d a positive multiple of 133590, even a faithful service cannot prevent the stream from stopping with AssertionError |

## Left out

- `tap_exchangerate/__main__.py` is not part of this model. It holds argument parsing, reading the config and catalog, printing, and today's date.
- `requests.get` and `raise_for_status` are not modelled. HTTP is replaced by the `Service` parameter, and a non-success status becomes `HttpError`. JSON decoding errors, a body that is not a JSON object (a string or a number, for which `"rates" in json_resp` at `tap_exchangerate/__init__.py:132` tests for a substring or raises TypeError) and a `"rates"` value that is not an object are not modelled. `Response` assumes an object body.
- The Gregorian calendar behind `strptime` and `strftime` is not modelled. Both are parameters, and the ISO results assume only `IsoPair`.
- `float(rate)` is not modelled. A rate is kept as the `real` the service hands over.
- Generator laziness is not modelled. Each drained generator is a finite sequence of rows followed by an optional exception. Rows consumed before a later failure are kept in `Outcome.rows`.
- `n` in `generate_item_pairs` is a natural number. A negative `n` is never passed by the core and is not modelled.
- `ceil(a / b)` uses float division in Python. It is modelled as the exact integer ceiling, which agrees for all inputs below 2^53.
- Descending ranges through `get_exr_timeseries` are computed by the model but covered by no lemma. The lemmas about the stream require `start <= end`.
- `ExchangeRow.date` is annotated as a `date` in Python but receives the response's key text. The model keeps the text.
- A `datetime` is a day and a second of that day. Microseconds and time zones are not modelled. A custom `strptime` pattern that yields microseconds cannot be expressed, and neither can the TypeError Python raises when an aware datetime is compared with a naive one at `tap_exchangerate/__init__.py:69`.
- The assertion at `tap_exchangerate/__init__.py:126` is taken to be enabled, as it is without `python -O`. Its message text is not modelled.
- The deduplication and range results assume a `Faithful` service. Such a service answers each request of at most 365 days with a well-formed `"rates"` member whose keys are ISO dates inside the requested window. Without that assumption, the model states only how the stream is assembled.
- Stitching.TimeseriesOverlong states only that the stream stops with AssertionError. The rows yielded before that are stated on the plan by Stitching.PlanOverlong.
