/** `generate_item_pairs` and `generate_date_pairs`: cut a sequence into at
    most n adjacent pairs of evenly spaced samples that span it from its first
    to its last item. */
module Partition {
  import opened Base
  import opened Dates
  import opened DateRanges

  predicate Distinct<T(==)>(items: seq<T>) {
    forall i, j :: 0 <= i < j < |items| ==> items[i] != items[j]
  }

  /** Python's `zip(a, b)`: stops at the shorter sequence. */
  function Zip<A, B>(a: seq<A>, b: seq<B>): seq<(A, B)> {
    seq(if |a| < |b| then |a| else |b|, i requires 0 <= i < |a| && i < |b| => (a[i], b[i]))
  }

  lemma MulMono(a: nat, b: nat, s: nat)
    requires a <= b
    ensures a * s <= b * s
  {
    assert b * s == a * s + (b - a) * s;
  }

  lemma MulStrict(a: nat, b: nat, s: nat)
    requires s > 0 && a * s < b * s
    ensures a < b
  {
    if a >= b {
      MulMono(b, a, s);
    }
  }

  /** Every sample index of a stride stays inside the sequence. */
  lemma StrideInRange(len: nat, s: nat, j: nat)
    requires s > 0 && j < CeilDiv(len, s)
    ensures j * s < len
  {
    MulMono(j, CeilDiv(len, s) - 1, s);
  }

  lemma StridesInRange(len: nat, s: nat)
    requires s > 0
    ensures forall j :: 0 <= j < CeilDiv(len, s) ==> j * s < len
  {
    forall j | 0 <= j < CeilDiv(len, s)
      ensures j * s < len
    {
      StrideInRange(len, s, j);
    }
  }

  /** `items[::s]`: the item at every multiple of s. */
  function Every<T>(items: seq<T>, s: nat): (r: seq<T>)
    requires s > 0
    ensures |r| == CeilDiv(|items|, s)
    ensures forall j :: 0 <= j < |r| ==> j * s < |items| && r[j] == items[j * s]
  {
    StridesInRange(|items|, s);
    seq(CeilDiv(|items|, s), j requires 0 <= j < CeilDiv(|items|, s) => items[j * s])
  }

  /** `generate_item_pairs(items, n)` on the materialised items. The stride is
      `ceil(len / n)`; an empty input with n >= 1 makes the slice step zero,
      which Python refuses. */
  function ItemPairs<T(==)>(items: seq<T>, n: nat): (r: Result<seq<(T, T)>>)
    ensures n == 0 ==> r == Ok([])
    ensures n > 0 && |items| == 0 ==> r == Err(ValueError)
    ensures n > 0 && |items| > 0 ==> r.Ok?
    ensures n > 0 && |items| == 1 ==> r == Ok([])
    ensures r.Ok? ==> forall i :: 0 <= i < |r.value| - 1 ==> r.value[i].1 == r.value[i + 1].0
    ensures r.Ok? ==> |r.value| <= n
  {
    if n == 0 then Ok([])
    else if |items| == 0 then Err(ValueError)
    else
      SamplesCount(|items|, n);
      var narrowed := Every(items, CeilDiv(|items|, n));
      var final := items[|items| - 1];
      var withFinal := narrowed + (if final !in narrowed then [final] else []);
      Ok(Zip(withFinal, withFinal[1..]))
  }

  /** The sample indices `range(0, len, s)`. */
  function Samples(len: nat, s: nat): (ss: seq<nat>)
    requires s > 0
    ensures |ss| == CeilDiv(len, s)
    ensures forall j :: 0 <= j < |ss| ==> ss[j] == j * s < len
  {
    StridesInRange(len, s);
    seq(CeilDiv(len, s), j requires 0 <= j < CeilDiv(len, s) => j * s)
  }

  /** The indices whose items `generate_item_pairs` pairs up, for distinct
      items: the samples, then the final index unless it was sampled. */
  function Points(len: nat, n: nat): seq<nat>
    requires len > 0 && n > 0
  {
    var ss := Samples(len, CeilDiv(len, n));
    if ss[|ss| - 1] == len - 1 then ss else ss + [len - 1]
  }

  /** Whether the final index is itself a sample of the stride. */
  predicate FinalSampled(len: nat, n: nat)
    requires len > 0 && n > 0
  {
    var ss := Samples(len, CeilDiv(len, n));
    ss[|ss| - 1] == len - 1
  }

  /** Consecutive samples lie one stride apart, and the last one lies within
      a stride of the end. */
  lemma SamplesStep(len: nat, s: nat)
    requires s > 0
    ensures var ss := Samples(len, s);
            && (forall i :: 0 <= i < |ss| - 1 ==> ss[i + 1] == ss[i] + s)
            && (|ss| > 0 ==> len <= ss[|ss| - 1] + s)
  {
    var ss := Samples(len, s);
    forall i | 0 <= i < |ss| - 1
      ensures ss[i + 1] == ss[i] + s
    {
      assert (i + 1) * s == i * s + s;
    }
    if |ss| > 0 {
      var c := |ss|;
      assert c * s == (c - 1) * s + s;
    }
  }

  /** There are no more samples than n when the stride is `ceil(len / n)`. */
  lemma SamplesCount(len: nat, n: nat)
    requires len > 0 && n > 0
    ensures |Samples(len, CeilDiv(len, n))| <= n
  {
    var s := CeilDiv(len, n);
    var c := |Samples(len, s)|;
    assert (c - 1) * s < len;
    assert n * s >= len;
    MulStrict(c - 1, n, s);
  }

  /** The points start at 0 and end at the final index, rise strictly by at
      most one stride at a time, number at most n + 1, and there are at least
      two of them once the input holds two items. The last gap is exactly one
      stride when the final index was sampled and shorter otherwise. */
  lemma PointsShape(len: nat, n: nat)
    requires len > 0 && n > 0
    ensures var p, s := Points(len, n), CeilDiv(len, n);
            && |p| >= 1 && p[0] == 0 && p[|p| - 1] == len - 1
            && (forall i :: 0 <= i < |p| - 1 ==> p[i] < p[i + 1] <= p[i] + s)
            && |p| - 1 <= n
            && (len >= 2 ==> |p| >= 2)
            && (len >= 2 ==> (p[|p| - 1] - p[|p| - 2] == s <==> FinalSampled(len, n)))
  {
    var s := CeilDiv(len, n);
    var ss := Samples(len, s);
    var p := Points(len, n);
    SamplesStep(len, s);
    SamplesCount(len, n);
    if !FinalSampled(len, n) {
      assert p == ss + [len - 1];
      assert p[|p| - 2] == ss[|ss| - 1];
    }
  }

  /** At least two points once the input holds two items, at most n + 1. */
  lemma PointsCount(len: nat, n: nat)
    requires len > 0 && n > 0
    ensures len >= 2 ==> |Points(len, n)| >= 2
    ensures |Points(len, n)| <= n + 1
  {
    PointsShape(len, n);
  }

  /** Every point indexes the sequence. */
  lemma PointsInRange(len: nat, n: nat)
    requires len > 0 && n > 0
    ensures |Points(len, n)| >= 1
    ensures forall i :: 0 <= i < |Points(len, n)| ==> Points(len, n)[i] < len
  {
  }

  /** The adjacent pairs of the items at the given indices. */
  function PairsAt<T>(items: seq<T>, p: seq<nat>): seq<(T, T)>
    requires forall i :: 0 <= i < |p| ==> p[i] < |items|
  {
    if |p| == 0 then []
    else seq(|p| - 1, i requires 0 <= i < |p| - 1 => (items[p[i]], items[p[i + 1]]))
  }

  /** On distinct items the membership test at the end of the samples is the
      test "the final index was sampled", so the pairs are those of the points'
      items. */
  lemma ItemPairsAtPoints<T>(items: seq<T>, n: nat)
    requires |items| > 0 && n > 0 && Distinct(items)
    ensures ItemPairs(items, n) == Ok(PairsAt(items, Points(|items|, n)))
  {
    var len, s := |items|, CeilDiv(|items|, n);
    var narrowed := Every(items, s);
    var ss := Samples(len, s);
    var c := |ss|;
    var p := Points(len, n);
    var final := items[len - 1];
    var withFinal := narrowed + (if final !in narrowed then [final] else []);
    assert (final in narrowed) <==> ss[c - 1] == len - 1 by {
      if final in narrowed {
        var j :| 0 <= j < c && narrowed[j] == final;
        assert j * s == len - 1;
        MulMono(j, c - 1, s);
      } else {
        assert narrowed[c - 1] == items[ss[c - 1]];
      }
    }
    assert |withFinal| == |p|;
    assert forall i :: 0 <= i < |p| ==> withFinal[i] == items[p[i]];
    assert Zip(withFinal, withFinal[1..]) == PairsAt(items, p);
  }

  /** `generate_item_pairs` on distinct items, at least two of them, and
      n >= 1: between one and n pairs, the first starting at the first item,
      the last ending at the final item, each pair joining the items at two
      points at most one stride `ceil(len / n)` apart. */
  lemma ItemPairsSpan<T>(items: seq<T>, n: nat)
    requires |items| >= 2 && n > 0 && Distinct(items)
    ensures ItemPairs(items, n).Ok?
    ensures var r, p := ItemPairs(items, n).value, Points(|items|, n);
            && 1 <= |r| <= n && |r| == |p| - 1
            && r[0].0 == items[0]
            && r[|r| - 1].1 == items[|items| - 1]
            && (forall k :: 0 <= k < |r| ==>
                  r[k] == (items[p[k]], items[p[k + 1]]) &&
                  0 < p[k + 1] - p[k] <= CeilDiv(|items|, n))
  {
    PointsShape(|items|, n);
    ItemPairsAtPoints(items, n);
  }

  /** The docstring's example: ten items cut three ways. */
  lemma ItemPairsExample()
    ensures ItemPairs([0, 1, 2, 3, 4, 5, 6, 7, 8, 9], 3) == Ok([(0, 4), (4, 8), (8, 9)])
  {
    var items := [0, 1, 2, 3, 4, 5, 6, 7, 8, 9];
    assert CeilDiv(10, 3) == 4;
    var narrowed := Every(items, 4);
    assert narrowed == [0, 4, 8];
    assert 9 !in narrowed;
    var withFinal := narrowed + [9];
    assert withFinal[1..] == [4, 8, 9];
    assert Zip(withFinal, withFinal[1..]) == [(0, 4), (4, 8), (8, 9)];
  }

  /** `generate_date_pairs(start, end, n)`. With n == 0 the pairs generator
      returns before the date range is ever consumed. */
  function GenerateDatePairs(start: DateLike, end: DateLike, n: nat,
                             parse: Parser, strftime: Formatter): (r: Result<seq<(DateLike, DateLike)>>)
    ensures n == 0 ==> r == Ok([])
    ensures n > 0 ==> (r.Ok? <==> DateRange(start, end, Some(IsoFormat), parse, strftime).Ok?)
    ensures n > 0 && r.Err? ==> r == Err(DateRange(start, end, Some(IsoFormat), parse, strftime).error)
    ensures r.Ok? ==> |r.value| <= n
    ensures r.Ok? ==> forall i :: 0 <= i < |r.value| - 1 ==> r.value[i].1 == r.value[i + 1].0
  {
    if n == 0 then Ok([])
    else
      var dates :- DateRange(start, end, Some(IsoFormat), parse, strftime);
      ItemPairs(dates, n)
  }

  /** The ISO text of a day, as `strftime("%Y-%m-%d")` writes it. */
  function IsoText(strftime: Formatter, day: int): DateLike {
    Text(strftime(day, 0, IsoFormat))
  }

  /** The items are the ISO texts of the consecutive days a, a + 1, ... */
  predicate IsoDays(items: seq<DateLike>, strftime: Formatter, a: int) {
    forall k :: 0 <= k < |items| ==> items[k] == IsoText(strftime, a + k)
  }

  /** The ISO texts of consecutive days are pairwise different. */
  lemma IsoTextsDistinct(parse: Parser, strftime: Formatter, days: seq<DateLike>, a: int)
    requires IsoPair(parse, strftime) && IsoDays(days, strftime, a)
    ensures Distinct(days)
  {
    forall i, j | 0 <= i < j < |days|
      ensures days[i] != days[j]
    {
      assert parse(strftime(a + i, 0, IsoFormat), IsoFormat) == Some((a + i, 0));
      assert parse(strftime(a + j, 0, IsoFormat), IsoFormat) == Some((a + j, 0));
    }
  }

  /** The walk between midnights of days a <= b, rendered in ISO form: the
      ISO texts of the days a through b. */
  lemma WalkIso(a: int, b: int, strftime: Formatter)
    requires a <= b
    ensures var r := Walk(DateTime(a, 0), DateTime(b, 0), Some(IsoFormat), strftime);
            && r.Ok? && |r.value| == b - a + 1 && IsoDays(r.value, strftime, a)
  {
    var s, t := DateTime(a, 0), DateTime(b, 0);
    WalkElements(s, t, Some(IsoFormat), strftime);
    assert DaysBetween(s, t).value == b - a;
    var ds := Walk(s, t, Some(IsoFormat), strftime).value;
    forall k | 0 <= k < |ds|
      ensures ds[k] == IsoText(strftime, a + k)
    {
      assert ds[k] == Emit(AddDays(s, k), Some(IsoFormat), strftime);
      assert AddDays(s, k) == DateTime(a + k, 0);
    }
  }

  /** ISO text naming days a <= b gives the range of the ISO texts of the
      days a through b, and no two of them are equal. */
  lemma IsoDates(start: string, end: string, parse: Parser, strftime: Formatter)
    requires IsoPair(parse, strftime)
    requires parse(start, IsoFormat).Some? && parse(end, IsoFormat).Some?
    requires parse(start, IsoFormat).value.0 <= parse(end, IsoFormat).value.0
    ensures var a, b := parse(start, IsoFormat).value.0, parse(end, IsoFormat).value.0;
            var r := DateRange(Text(start), Text(end), Some(IsoFormat), parse, strftime);
            && r.Ok? && |r.value| == b - a + 1 && Distinct(r.value) && IsoDays(r.value, strftime, a)
  {
    var a, b := parse(start, IsoFormat).value.0, parse(end, IsoFormat).value.0;
    assert DateRange(Text(start), Text(end), Some(IsoFormat), parse, strftime)
           == Walk(DateTime(a, 0), DateTime(b, 0), Some(IsoFormat), strftime);
    WalkIso(a, b, strftime);
    var dates := Walk(DateTime(a, 0), DateTime(b, 0), Some(IsoFormat), strftime).value;
    IsoTextsDistinct(parse, strftime, dates, a);
  }

  /** With n >= 1 the date pairs are the item pairs of the whole range. */
  lemma DatePairsOfRange(start: string, end: string, n: nat, parse: Parser, strftime: Formatter)
    requires n > 0
    requires DateRange(Text(start), Text(end), Some(IsoFormat), parse, strftime).Ok?
    ensures GenerateDatePairs(Text(start), Text(end), n, parse, strftime) ==
              ItemPairs(DateRange(Text(start), Text(end), Some(IsoFormat), parse, strftime).value, n)
  {
  }

  /** The pairs of ISO texts of the days a + p[i] and a + p[i + 1]. */
  function DayPairs(strftime: Formatter, a: int, p: seq<nat>): seq<(DateLike, DateLike)> {
    if |p| == 0 then []
    else seq(|p| - 1, i requires 0 <= i < |p| - 1 => (IsoText(strftime, a + p[i]), IsoText(strftime, a + p[i + 1])))
  }

  lemma PairsAtDays(items: seq<DateLike>, p: seq<nat>, strftime: Formatter, a: int)
    requires forall i :: 0 <= i < |p| ==> p[i] < |items|
    requires IsoDays(items, strftime, a)
    ensures PairsAt(items, p) == DayPairs(strftime, a, p)
  {
  }

  /** The pairs of distinct items that are the ISO texts of consecutive days. */
  lemma ItemPairsOfDays(items: seq<DateLike>, n: nat, strftime: Formatter, a: int)
    requires n > 0 && |items| > 0 && Distinct(items) && IsoDays(items, strftime, a)
    ensures ItemPairs(items, n) == Ok(DayPairs(strftime, a, Points(|items|, n)))
  {
    ItemPairsAtPoints(items, n);
    PointsInRange(|items|, n);
    PairsAtDays(items, Points(|items|, n), strftime, a);
  }

  /** For ISO text naming days a <= b, the date pairs are the ISO texts of the
      days at the points of the b - a + 1 days of the range. */
  lemma DatePairsIso(start: string, end: string, n: nat, parse: Parser, strftime: Formatter)
    requires IsoPair(parse, strftime) && n > 0
    requires parse(start, IsoFormat).Some? && parse(end, IsoFormat).Some?
    requires parse(start, IsoFormat).value.0 <= parse(end, IsoFormat).value.0
    ensures var a, b := parse(start, IsoFormat).value.0, parse(end, IsoFormat).value.0;
            GenerateDatePairs(Text(start), Text(end), n, parse, strftime) ==
              Ok(DayPairs(strftime, a, Points(b - a + 1, n)))
  {
    var a, b := parse(start, IsoFormat).value.0, parse(end, IsoFormat).value.0;
    var range := DateRange(Text(start), Text(end), Some(IsoFormat), parse, strftime);
    IsoDates(start, end, parse, strftime);
    DatePairsOfRange(start, end, n, parse, strftime);
    ItemPairsOfDays(range.value, n, strftime, a);
    assert |range.value| == b - a + 1;
  }
}
