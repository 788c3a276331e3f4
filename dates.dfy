/** Date normalisation and the small part of Python's `datetime` arithmetic the
    core relies on. A calendar date is an integer day ordinal; a datetime is a
    day ordinal with a second of that day. `strptime` and `strftime` are taken
    as parameters: the calendar behind them is not part of the model. */
module Dates {
  import opened Base

  /** The pattern the core uses everywhere by default. */
  const IsoFormat: string := "%Y-%m-%d"

  const SecondsPerDay: int := 86400

  type SecondOfDay = s: int | 0 <= s < 86400

  /** The values `as_date` is handed: text, a date, a datetime, or anything else. */
  datatype DateLike =
    | Text(text: string)
    | Date(day: int)
    | DateTime(day: int, second: SecondOfDay)
    | Other

  /** `datetime.strptime(text, pattern)`: the day and second the text denotes,
      or None where the text does not match the pattern. */
  type Parser = (string, string) -> Option<(int, SecondOfDay)>

  /** `strftime(pattern)` applied to the date `day` at second `second`. */
  type Formatter = (int, SecondOfDay, string) -> string

  /** The values date arithmetic is defined on. */
  predicate Structured(x: DateLike) {
    x.Date? || x.DateTime?
  }

  /** The second of the day; a date stands at midnight. */
  function TimeOfDay(x: DateLike): SecondOfDay
    requires Structured(x)
  {
    if x.DateTime? then x.second else 0
  }

  /** `as_date(date_like, format)`. A datetime loses its time, a date is kept,
      text is parsed with the pattern (yielding a datetime, not a date), and
      every other value is refused. A missing pattern makes `strptime` raise. */
  function AsDate(x: DateLike, format: Option<string>, parse: Parser): (r: Result<DateLike>)
    ensures r.Ok? ==> Structured(r.value)
    ensures r.Ok? <==> Structured(x) || (x.Text? && format.Some? && parse(x.text, format.value).Some?)
    ensures Structured(x) ==> r == Ok(Date(x.day))
    ensures r.Ok? && x.Text? ==>
              r.value == DateTime(parse(x.text, format.value).value.0, parse(x.text, format.value).value.1)
    ensures r.Err? ==> (r.error == TypeError <==> x.Text? && format.None?)
    ensures r.Err? && !(x.Text? && format.None?) ==> r.error == ValueError
  {
    match x
    case DateTime(day, _) => Ok(Date(day))
    case Date(_) => Ok(x)
    case Text(t) =>
      if format.None? then Err(TypeError)
      else (
        match parse(t, format.value)
        case None => Err(ValueError)
        case Some((day, second)) => Ok(DateTime(day, second)))
    case Other() => Err(ValueError)
  }

  /** `a <= b` on dates or datetimes; Python refuses to compare one with the other. */
  function LessEq(a: DateLike, b: DateLike): (r: Result<bool>)
    requires Structured(a) && Structured(b)
    ensures r.Ok? <==> a.Date? == b.Date?
    ensures r.Err? ==> r.error == TypeError
    ensures r.Ok? && a.day < b.day ==> r.value
    ensures r.Ok? && a.day > b.day ==> !r.value
    ensures r.Ok? && a.day == b.day ==> (r.value <==> TimeOfDay(a) <= TimeOfDay(b))
    ensures r.Ok? ==> (r.value <==> a.day * SecondsPerDay + TimeOfDay(a) <= b.day * SecondsPerDay + TimeOfDay(b))
  {
    if a.Date? != b.Date? then Err(TypeError)
    else Ok(a.day < b.day || (a.day == b.day && TimeOfDay(a) <= TimeOfDay(b)))
  }

  /** `(b - a).days`: the whole days of the difference, rounded toward minus
      infinity as `timedelta` normalises it. */
  function DaysBetween(a: DateLike, b: DateLike): (r: Result<int>)
    requires Structured(a) && Structured(b)
    ensures r.Ok? <==> a.Date? == b.Date?
    ensures r.Err? ==> r.error == TypeError
    ensures r.Ok? ==> (r.value >= 0 <==> LessEq(a, b) == Ok(true))
    ensures r.Ok? && TimeOfDay(a) == TimeOfDay(b) ==> r.value == b.day - a.day
    ensures r.Ok? ==>
              r.value * SecondsPerDay <= (b.day - a.day) * SecondsPerDay + TimeOfDay(b) - TimeOfDay(a)
              < (r.value + 1) * SecondsPerDay
  {
    if a.Date? != b.Date? then Err(TypeError)
    else
      var seconds := (b.day - a.day) * SecondsPerDay + TimeOfDay(b) - TimeOfDay(a);
      Ok(seconds / SecondsPerDay)
  }

  /** `x + timedelta(days=k)`. */
  function AddDays(x: DateLike, k: int): (r: DateLike)
    requires Structured(x)
    ensures Structured(r) && r.Date? == x.Date? && TimeOfDay(r) == TimeOfDay(x)
    ensures DaysBetween(x, r) == Ok(k)
  {
    if x.Date? then Date(x.day + k) else DateTime(x.day + k, x.second)
  }

  /** `x.strftime(pattern)`. */
  function Strftime(x: DateLike, pattern: string, strftime: Formatter): string
    requires Structured(x)
  {
    strftime(x.day, TimeOfDay(x), pattern)
  }

  /** What the model needs of the ISO pattern: text matching it denotes
      midnight, and a formatted date parses back to that date. */
  ghost predicate IsoPair(parse: Parser, strftime: Formatter) {
    && (forall t :: parse(t, IsoFormat).Some? ==> parse(t, IsoFormat).value.1 == 0)
    && (forall day: int, second: SecondOfDay ::
          parse(strftime(day, second, IsoFormat), IsoFormat) == Some((day, 0)))
  }

  /** Normalising an accepted value once more always yields a plain date with
      the same day: text becomes a datetime first and a date only on the
      second pass. */
  lemma AsDateTwice(x: DateLike, format: Option<string>, parse: Parser)
    requires AsDate(x, format, parse).Ok?
    ensures AsDate(AsDate(x, format, parse).value, format, parse) == Ok(Date(AsDate(x, format, parse).value.day))
    ensures x.Text? ==> AsDate(x, format, parse).value.DateTime?
  {
  }

  /** Under the ISO pair, formatted text is normalised back to the date it came from. */
  lemma IsoRoundTrip(parse: Parser, strftime: Formatter, x: DateLike)
    requires IsoPair(parse, strftime) && Structured(x)
    ensures AsDate(Text(Strftime(x, IsoFormat, strftime)), Some(IsoFormat), parse) == Ok(DateTime(x.day, 0))
  {
  }
}
