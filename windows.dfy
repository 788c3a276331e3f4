/** The windows of days `get_exr_timeseries` requests, on day ordinals: for an
    ascending range of d + 1 days starting at day a, at most
    `n_cuts = ceil(d / 365)` pairs of sampled endpoints (fewer when the stride
    reaches the final index early, as for d = 133590), the end of every window
    but the last moved back one day so that adjacent windows do not share a
    day. A one-day range (d = 0) has no window. */
module Windows {
  import opened Base
  import opened Partition

  /** The days lo through hi, in order. */
  function Days(lo: int, hi: int): (r: seq<int>)
    ensures |r| == if lo <= hi then hi - lo + 1 else 0
    ensures forall k :: 0 <= k < |r| ==> r[k] == lo + k
  {
    if hi < lo then [] else seq(hi - lo + 1, k requires 0 <= k <= hi - lo => lo + k)
  }

  /** Cutting a run of days at `mid` leaves the two runs that make it up. */
  lemma DaysSplit(lo: int, mid: int, hi: int)
    requires lo <= mid <= hi
    ensures Days(lo, mid - 1) + Days(mid, hi) == Days(lo, hi)
  {
    var left, right := Days(lo, mid - 1), Days(mid, hi);
    assert forall k :: 0 <= k < |left + right| ==> (left + right)[k] == lo + k by {
      forall k | 0 <= k < |left + right|
        ensures (left + right)[k] == lo + k
      {
        if k >= |left| {
          assert (left + right)[k] == right[k - |left|];
        }
      }
    }
  }

  /** Each endpoint lies strictly after the one before it. */
  predicate Rising(e: seq<int>) {
    forall i :: 0 <= i < |e| - 1 ==> e[i] < e[i + 1]
  }

  lemma RisingFar(e: seq<int>, i: int, j: int)
    requires Rising(e) && 0 <= i < j < |e|
    ensures e[i] < e[j]
    decreases j - i
  {
    if j > i + 1 {
      RisingFar(e, i, j - 1);
    }
  }

  /** The windows between adjacent endpoints, as the loop over the pairs
      requests them: `day_offset` is 1 except on the last pair. */
  function Shifted(e: seq<int>): seq<(int, int)> {
    if |e| < 2 then []
    else seq(|e| - 1, i requires 0 <= i < |e| - 1 =>
               (e[i], if i == |e| - 2 then e[i + 1] else e[i + 1] - 1))
  }

  /** All the days the windows name, window by window. */
  function Covered(w: seq<(int, int)>): seq<int> {
    if w == [] then [] else Days(w[0].0, w[0].1) + Covered(w[1..])
  }

  lemma ShiftedTail(e: seq<int>)
    requires |e| >= 3
    ensures Shifted(e) == [(e[0], e[1] - 1)] + Shifted(e[1..])
  {
  }

  /** The shifted windows, taken in order, name every day from the first
      endpoint to the last exactly once: no day is fetched twice and none is
      skipped. */
  lemma {:induction false} ShiftedCover(e: seq<int>)
    requires |e| >= 2 && Rising(e)
    ensures Covered(Shifted(e)) == Days(e[0], e[|e| - 1])
    decreases |e|
  {
    var w := Shifted(e);
    if |e| == 2 {
      assert w == [(e[0], e[1])];
      assert w[1..] == [];
    } else {
      ShiftedTail(e);
      assert w[1..] == Shifted(e[1..]);
      ShiftedCover(e[1..]);
      DaysSplit(e[0], e[1], e[|e| - 1]);
    }
  }

  /** The shifted windows are non-empty and strictly ordered: each ends
      before the next begins. */
  lemma ShiftedOrdered(e: seq<int>)
    requires |e| >= 2 && Rising(e)
    ensures var w := Shifted(e);
            && |w| == |e| - 1
            && w[0].0 == e[0] && w[|w| - 1].1 == e[|e| - 1]
            && (forall i :: 0 <= i < |w| ==> w[i].0 <= w[i].1)
            && (forall i, j :: 0 <= i < j < |w| ==> w[i].1 < w[j].0)
  {
    var w := Shifted(e);
    forall i, j | 0 <= i < j < |w|
      ensures w[i].1 < w[j].0
    {
      if j > i + 1 {
        RisingFar(e, i + 1, j);
      }
    }
  }

  /** `n_cuts` for a range whose ends are d days apart. */
  function Cuts(d: nat): nat {
    CeilDiv(d, 365)
  }

  /** The sampling stride `ceil((d + 1) / n_cuts)` over the d + 1 dates. */
  function Stride(d: nat): nat
    requires d >= 1
  {
    CeilDiv(d + 1, Cuts(d))
  }

  /** Day a plus each point. */
  function Offset(a: int, p: seq<nat>): seq<int> {
    seq(|p|, i requires 0 <= i < |p| => a + p[i])
  }

  /** The endpoints of the date pairs. */
  function Endpoints(a: int, d: nat): seq<int>
    requires d >= 1
  {
    Offset(a, Points(d + 1, Cuts(d)))
  }

  /** The windows requested for the ascending range from day a to day a + d. */
  function Plan(a: int, d: nat): (r: seq<(int, int)>)
    ensures d == 0 ==> r == []
    ensures d >= 1 ==> 1 <= |r| <= Cuts(d)
  {
    if d == 0 then []
    else
      EndpointsRising(a, d);
      Shifted(Endpoints(a, d))
  }

  /** The endpoints of a range of at least two days start at day a, end at
      day a + d, rise strictly and number at most `n_cuts + 1`. */
  lemma EndpointsRising(a: int, d: nat)
    requires d >= 1
    ensures var e := Endpoints(a, d);
            && 2 <= |e| <= Cuts(d) + 1
            && e[0] == a && e[|e| - 1] == a + d
            && Rising(e)
  {
    PointsShape(d + 1, Cuts(d));
  }

  /** The windows w join the days a + p[i] and a + p[i + 1], each end moved
      back one day but the last. */
  predicate Joins(a: int, p: seq<nat>, w: seq<(int, int)>) {
    && |p| >= 2 && |w| == |p| - 1
    && (forall i :: 0 <= i < |w| ==>
          w[i] == (a + p[i], if i == |w| - 1 then a + p[i + 1] else a + p[i + 1] - 1))
  }

  /** The windows between the days at points p: the i-th joins points i and
      i + 1, its end moved back one day unless it is the last. */
  lemma ShiftedOffset(a: int, p: seq<nat>)
    requires |p| >= 2
    ensures Joins(a, p, Shifted(Offset(a, p)))
  {
    var e := Offset(a, p);
    var w := Shifted(e);
    assert |e| == |p|;
    forall i | 0 <= i < |w|
      ensures w[i] == (a + p[i], if i == |w| - 1 then a + p[i + 1] else a + p[i + 1] - 1)
    {
      assert e[i] == a + p[i] && e[i + 1] == a + p[i + 1];
    }
  }

  lemma PlanIs(a: int, d: nat)
    requires d >= 1
    ensures Plan(a, d) == Shifted(Offset(a, Points(d + 1, Cuts(d))))
  {
  }

  /** The planned windows are those between the days at the points. */
  lemma PlanAt(a: int, d: nat)
    requires d >= 1
    ensures Joins(a, Points(d + 1, Cuts(d)), Plan(a, d))
  {
    var p := Points(d + 1, Cuts(d));
    PlanIs(a, d);
    PointsCount(d + 1, Cuts(d));
    ShiftedOffset(a, p);
  }

  /** The requested windows partition the range: a single-day range requests
      nothing; otherwise between one and `n_cuts` windows, non-empty, in
      order, disjoint, from the first day to the last, naming every day of
      the range exactly once. */
  lemma PlanPartition(a: int, d: nat)
    ensures d == 0 ==> Plan(a, d) == []
    ensures d >= 1 ==>
              var w := Plan(a, d);
              && 1 <= |w| <= Cuts(d)
              && w[0].0 == a && w[|w| - 1].1 == a + d
              && (forall i :: 0 <= i < |w| ==> w[i].0 <= w[i].1)
              && (forall i, j :: 0 <= i < j < |w| ==> w[i].1 < w[j].0)
              && Covered(w) == Days(a, a + d)
  {
    if d >= 1 {
      var e := Endpoints(a, d);
      EndpointsRising(a, d);
      ShiftedOrdered(e);
      ShiftedCover(e);
    }
  }

  /** A multiple of s leaves no remainder. */
  lemma ModMultiple(q: nat, s: nat)
    requires s > 0
    ensures (q * s) % s == 0
  {
    var x := q * s;
    var t, r := x / s, x % s;
    assert x == t * s + r;
    assert (q - t) * s == r;
    if q > t {
      MulMono(1, q - t, s);
    }
  }

  /** The stride never exceeds 366 and reaches it exactly when d is a
      multiple of 365. */
  lemma StrideBound(d: nat)
    requires d >= 1
    ensures 1 <= Stride(d) <= 366
    ensures Stride(d) == 366 <==> d % 365 == 0
  {
    var n, s := Cuts(d), Stride(d);
    assert n * 365 >= d && (n - 1) * 365 < d;
    assert s * n >= d + 1 && (s - 1) * n < d + 1;
    if s >= 367 {
      MulMono(366, s - 1, n);
      assert false;
    }
    if d % 365 == 0 {
      var q := d / 365;
      assert d == 365 * q;
      assert n == q;
      if s <= 365 {
        MulMono(s, 365, n);
        assert false;
      }
    }
    if s == 366 {
      assert 365 * n <= d;
      assert d == 365 * n;
      ModMultiple(n, 365);
    }
  }

  /** The last multiple of s below len is len - 1 exactly when s divides
      len - 1. */
  lemma LastMultiple(len: nat, s: nat, c: nat)
    requires s > 0 && c >= 1 && c * s >= len && (c - 1) * s < len
    ensures (c - 1) * s == len - 1 <==> (len - 1) % s == 0
  {
    if (c - 1) * s == len - 1 {
      ModMultiple(c - 1, s);
    }
    if (len - 1) % s == 0 {
      var q := (len - 1) / s;
      assert q * s == len - 1;
      MulStrict(q, c, s);
      if q + 1 <= c - 1 {
        MulMono(q + 1, c - 1, s);
        assert false;
      }
    }
  }

  /** The final index is sampled exactly when the stride divides it. */
  lemma FinalSampledMod(len: nat, n: nat)
    requires len > 0 && n > 0
    ensures FinalSampled(len, n) <==> (len - 1) % CeilDiv(len, n) == 0
  {
    var s := CeilDiv(len, n);
    var ss := Samples(len, s);
    var c := |ss|;
    assert ss[c - 1] == (c - 1) * s;
    LastMultiple(len, s, c);
  }

  /** 365 * 366 is the least common multiple of 365 and 366. */
  lemma CommonMultiple(d: nat)
    ensures d % 365 == 0 && d % 366 == 0 <==> d % 133590 == 0
  {
    if d % 365 == 0 && d % 366 == 0 {
      var a, b := d / 365, d / 366;
      assert d == 365 * a && d == 366 * b;
      assert a == 366 * (a - b);
      assert a - b >= 0;
      assert d == (a - b) * 133590;
      ModMultiple(a - b, 133590);
    }
    if d % 133590 == 0 {
      var q := d / 133590;
      assert d == (366 * q) * 365 && d == (365 * q) * 366;
      ModMultiple(366 * q, 365);
      ModMultiple(365 * q, 366);
    }
  }

  /** Windows joining points at most s apart: all but the last span less
      than s days, the last spans the gap between the final two points. */
  lemma JoinsSpans(a: int, p: seq<nat>, w: seq<(int, int)>, s: nat)
    requires Joins(a, p, w)
    requires forall i :: 0 <= i < |p| - 1 ==> p[i] < p[i + 1] <= p[i] + s
    ensures forall i :: 0 <= i < |w| - 1 ==> w[i].1 - w[i].0 < s
    ensures w[|w| - 1].1 - w[|w| - 1].0 == p[|p| - 1] - p[|p| - 2]
  {
    var k := |w| - 1;
    assert w[k] == (a + p[k], a + p[k + 1]);
    forall i | 0 <= i < |w| - 1
      ensures w[i].1 - w[i].0 < s
    {
      assert w[i] == (a + p[i], a + p[i + 1] - 1);
    }
  }

  /** The last window's span, s the stride: it is at most s, reaches s
      exactly when the final date falls on the stride, and s is 366 exactly
      when d is a multiple of 365. */
  lemma LastSpan(d: nat, s: nat, span: int, onStride: bool)
    requires 1 <= s <= 366 && (s == 366 <==> d % 365 == 0)
    requires span <= s && (span == s <==> onStride) && (onStride <==> d % s == 0)
    ensures span <= 366
    ensures span > 365 <==> d % 133590 == 0
  {
    CommonMultiple(d);
  }

  /** The spans of windows joining points at most s apart, the last gap
      reaching s exactly when the final date falls on the stride. */
  lemma SpansOf(a: int, d: nat, p: seq<nat>, w: seq<(int, int)>, s: nat, onStride: bool)
    requires Joins(a, p, w)
    requires forall i :: 0 <= i < |p| - 1 ==> p[i] < p[i + 1] <= p[i] + s
    requires p[|p| - 1] - p[|p| - 2] == s <==> onStride
    requires 1 <= s <= 366 && (s == 366 <==> d % 365 == 0) && (onStride <==> d % s == 0)
    ensures |w| >= 1
    ensures forall i :: 0 <= i < |w| - 1 ==> w[i].1 - w[i].0 <= 365
    ensures w[|w| - 1].1 - w[|w| - 1].0 <= 366
    ensures w[|w| - 1].1 - w[|w| - 1].0 > 365 <==> d % 133590 == 0
  {
    JoinsSpans(a, p, w, s);
    LastSpan(d, s, p[|p| - 1] - p[|p| - 2], onStride);
  }

  /** The points of a range of d + 1 >= 2 days lie at most one stride
      apart; the last gap is a whole stride exactly when the stride divides d. */
  lemma PointGaps(d: nat)
    requires d >= 1
    ensures var p, s := Points(d + 1, Cuts(d)), Stride(d);
            && |p| >= 2
            && (forall i :: 0 <= i < |p| - 1 ==> p[i] < p[i + 1] <= p[i] + s)
            && (p[|p| - 1] - p[|p| - 2] == s <==> d % s == 0)
  {
    PointsShape(d + 1, Cuts(d));
    FinalSampledMod(d + 1, Cuts(d));
  }

  /** The day span `(end - start).days` of each requested window: at most
      365 for every window but the last; the last spans at most 366, and
      more than 365 exactly when d is a positive multiple of 365 * 366, which
      is when the fetch's assertion fails. */
  lemma PlanSpans(a: int, d: nat)
    requires d >= 1
    ensures var w := Plan(a, d);
            && |w| >= 1
            && (forall i :: 0 <= i < |w| - 1 ==> w[i].1 - w[i].0 <= 365)
            && w[|w| - 1].1 - w[|w| - 1].0 <= 366
            && (w[|w| - 1].1 - w[|w| - 1].0 > 365 <==> d % 133590 == 0)
  {
    var p, w, s := Points(d + 1, Cuts(d)), Plan(a, d), Stride(d);
    PlanAt(a, d);
    PointGaps(d);
    StrideBound(d);
    SpansOf(a, d, p, w, s, d % s == 0);
  }

  /** The shortest range that trips the assertion: 133590 days after day a,
      split into 365 windows, the last of which spans 366 days. */
  lemma LongestLastWindow(a: int)
    ensures |Plan(a, 133590)| == 365
    ensures Plan(a, 133590)[364] == (a + 133224, a + 133590)
  {
    assert Cuts(133590) == 366;
    assert Stride(133590) == 366;
    var ss := Samples(133591, 366);
    assert |ss| == 366 && ss[365] == 133590 && ss[364] == 133224;
    assert Points(133591, 366) == ss;
  }
}
