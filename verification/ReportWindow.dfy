/** The report's double window: two adjoining aligned halves, a series cut between them, and their comparison. */
module ReportWindow {
  import opened Wrappers
  import opened Arithmetic

  datatype ReportRange = Hours3 | Hours12 | Hours24 | Days7

  function RangeSeconds(range: ReportRange): nat {
    match range case Hours3 => 10_800 case Hours12 => 43_200 case Hours24 => 86_400 case Days7 => 604_800
  }

  function PeriodSeconds(range: ReportRange): nat {
    match range case Hours3 => 300 case Hours12 => 900 case Hours24 => 1800 case Days7 => 3600
  }

  /** Instants are in milliseconds, a period in seconds. */
  datatype TimeWindow = TimeWindow(start: int, end: int, periodSeconds: nat)
  datatype DoubleWindow = DoubleWindow(
    fetch: TimeWindow, current: TimeWindow, previous: TimeWindow, splitAtMs: int, range: ReportRange)

  function DoubleWindowOf(range: ReportRange, nowMs: int): DoubleWindow {
    var periodSeconds := PeriodSeconds(range);
    var periodMs := periodSeconds * 1000;
    var endMs := nowMs / periodMs * periodMs;
    var halfMs := RangeSeconds(range) * 1000;
    var splitAtMs := endMs - halfMs;
    var startMs := endMs - 2 * halfMs;
    DoubleWindow(
      TimeWindow(startMs, endMs, periodSeconds),
      TimeWindow(splitAtMs, endMs, periodSeconds),
      TimeWindow(startMs, splitAtMs, periodSeconds),
      splitAtMs, range)
  }

  // ---- The window ----

  lemma MultipleDivides(q: int, p: int)
    requires p > 0
    ensures q * p % p == 0
  {
    DivModUnique(q * p, p, q, 0);
  }

  /** Each range is a whole number of its periods, so both of the window's inner and outer edges are boundaries. */
  lemma EdgesAreBoundaries(range: ReportRange, nowMs: int)
    ensures var w, periodMs := DoubleWindowOf(range, nowMs), PeriodSeconds(range) * 1000;
      w.fetch.start % periodMs == 0 && w.splitAtMs % periodMs == 0 && w.fetch.end % periodMs == 0
  {
    var periodMs := PeriodSeconds(range) * 1000;
    var q, n := nowMs / periodMs, RangeSeconds(range) / PeriodSeconds(range);
    assert RangeSeconds(range) * 1000 == n * periodMs;
    MulDistributes(q - n, n, periodMs);
    MulDistributes(q - 2 * n, 2 * n, periodMs);
    MulAssociates(2, n, periodMs);
    MultipleDivides(q, periodMs);
    MultipleDivides(q - n, periodMs);
    MultipleDivides(q - 2 * n, periodMs);
  }

  function Hours(range: ReportRange): int {
    match range case Hours3 => 3 case Hours12 => 12 case Hours24 => 24 case Days7 => 168
  }

  /** A report reads a point for every five minutes, quarter, half or whole hour. */
  function Minutes(range: ReportRange): int {
    match range case Hours3 => 5 case Hours12 => 15 case Hours24 => 30 case Days7 => 60
  }

  /** The fetched window is its two halves end to end, each one range long, and ends less than a period before now. */
  lemma HalvesAdjoin(range: ReportRange, nowMs: int)
    ensures var w, rangeMs, periodMs := DoubleWindowOf(range, nowMs), Hours(range) * 3_600_000, Minutes(range) * 60_000;
      && w.fetch.start == w.previous.start && w.previous.end == w.splitAtMs == w.current.start && w.current.end == w.fetch.end
      && w.previous.end - w.previous.start == rangeMs == w.current.end - w.current.start
      && w.fetch.end <= nowMs < w.fetch.end + periodMs
      && w.fetch.periodSeconds == w.current.periodSeconds == w.previous.periodSeconds == PeriodSeconds(range)
      && PeriodSeconds(range) * 1000 == periodMs && RangeSeconds(range) * 1000 == rangeMs
      && w.range == range
  {
    var periodMs := PeriodSeconds(range) * 1000;
    assert nowMs == nowMs / periodMs * periodMs + nowMs % periodMs;
  }

  /** Two moments ask for the same window exactly when they fall in the same period. */
  lemma WindowIsStable(range: ReportRange, a: int, b: int)
    ensures DoubleWindowOf(range, a) == DoubleWindowOf(range, b)
       <==> a / (PeriodSeconds(range) * 1000) == b / (PeriodSeconds(range) * 1000)
  {
    var periodMs := PeriodSeconds(range) * 1000;
    if DoubleWindowOf(range, a) == DoubleWindowOf(range, b) {
      var end := DoubleWindowOf(range, a).fetch.end;
      assert end == a / periodMs * periodMs && end == b / periodMs * periodMs;
      DivModUnique(end, periodMs, a / periodMs, 0);
      DivModUnique(end, periodMs, b / periodMs, 0);
    }
  }

  /** No datapoint's period straddles an edge: stamped on a boundary, it lies in one half, or outside both, as a whole. */
  lemma NoPeriodStraddles(range: ReportRange, nowMs: int, t: int)
    requires t % (PeriodSeconds(range) * 1000) == 0
    ensures var w, periodMs := DoubleWindowOf(range, nowMs), PeriodSeconds(range) * 1000;
      && (t < w.splitAtMs ==> t + periodMs <= w.splitAtMs)
      && (t < w.fetch.end ==> t + periodMs <= w.fetch.end)
      && (t < w.fetch.start ==> t + periodMs <= w.fetch.start)
  {
    var w, periodMs := DoubleWindowOf(range, nowMs), PeriodSeconds(range) * 1000;
    EdgesAreBoundaries(range, nowMs);
    NextBoundary(t, w.splitAtMs, periodMs);
    NextBoundary(t, w.fetch.end, periodMs);
    NextBoundary(t, w.fetch.start, periodMs);
  }

  /** The whole period that starts at t lies in the window. */
  predicate Holds(w: TimeWindow, t: int, periodMs: int) {
    w.start <= t && t + periodMs <= w.end
  }

  /** Every datapoint of the fetched window lies, with its whole period, in exactly one half: the current one from the split on. */
  lemma PeriodsFallInOneHalf(range: ReportRange, nowMs: int, t: int)
    requires t % (PeriodSeconds(range) * 1000) == 0
    requires var w := DoubleWindowOf(range, nowMs); w.fetch.start <= t < w.fetch.end
    ensures var w, periodMs := DoubleWindowOf(range, nowMs), PeriodSeconds(range) * 1000;
      && (Holds(w.current, t, periodMs) <==> t >= w.splitAtMs)
      && (Holds(w.previous, t, periodMs) <==> t < w.splitAtMs)
  {
    HalvesAdjoin(range, nowMs);
    NoPeriodStraddles(range, nowMs, t);
  }

  lemma NextBoundary(t: int, edge: int, p: int)
    requires p > 0 && t % p == 0 && edge % p == 0
    ensures t < edge ==> t + p <= edge
  {
    var a, b := t / p, edge / p;
    assert t == a * p && edge == b * p;
    if a < b {
      MulMonotone(a + 1, b, p);
      MulDistributes(a, 1, p);
    } else {
      MulMonotone(b, a, p);
    }
  }

  // ---- Cutting a series ----

  datatype Series = Series(timestamps: seq<int>, values: seq<real>)

  predicate Aligned(series: Series) {
    |series.timestamps| == |series.values|
  }

  /** The first index that is not before the split, or the length when there is none. */
  function Cut(timestamps: seq<int>, splitAtMs: int): (r: nat)
    ensures r <= |timestamps|
    ensures forall i :: 0 <= i < r ==> timestamps[i] < splitAtMs
    ensures r < |timestamps| ==> timestamps[r] >= splitAtMs
  {
    if timestamps == [] || timestamps[0] >= splitAtMs then 0 else 1 + Cut(timestamps[1..], splitAtMs)
  }

  /** `slice(0, n)` and `slice(n)`, which stop at the end of the array. */
  function Take<T>(s: seq<T>, n: nat): seq<T> { if n <= |s| then s[..n] else s }

  function Drop<T>(s: seq<T>, n: nat): seq<T> { if n <= |s| then s[n..] else [] }

  datatype Halves = Halves(current: Series, previous: Series)

  function SplitSeries(series: Series, splitAtMs: int): Halves {
    var cut := Cut(series.timestamps, splitAtMs);
    Halves(
      Series(Drop(series.timestamps, cut), Drop(series.values, cut)),
      Series(Take(series.timestamps, cut), Take(series.values, cut)))
  }

  /** The points on one side of the split, in order. */
  function Side(series: Series, splitAtMs: int, late: bool): (r: Series)
    requires Aligned(series)
    ensures Aligned(r)
    ensures forall t :: t in r.timestamps ==> (t >= splitAtMs) == late
    decreases |series.timestamps|
  {
    if series.timestamps == [] then Series([], [])
    else
      var rest := Side(Series(series.timestamps[1..], series.values[1..]), splitAtMs, late);
      if (series.timestamps[0] >= splitAtMs) == late
      then Series([series.timestamps[0]] + rest.timestamps, [series.values[0]] + rest.values)
      else rest
  }

  predicate Ascending(timestamps: seq<int>) {
    forall i, j :: 0 <= i < j < |timestamps| ==> timestamps[i] <= timestamps[j]
  }

  /** Once a timestamp has reached the split, no later one falls back before it. */
  predicate NoReturn(timestamps: seq<int>, splitAtMs: int) {
    forall i, j :: 0 <= i < j < |timestamps| && timestamps[i] >= splitAtMs ==> timestamps[j] >= splitAtMs
  }

  lemma {:induction false} SideOfAll(series: Series, splitAtMs: int, late: bool)
    requires Aligned(series) && forall i :: 0 <= i < |series.timestamps| ==> (series.timestamps[i] >= splitAtMs) == late
    ensures Side(series, splitAtMs, late) == series && Side(series, splitAtMs, !late) == Series([], [])
    decreases |series.timestamps|
  {
    if series.timestamps != [] {
      SideOfAll(Series(series.timestamps[1..], series.values[1..]), splitAtMs, late);
    }
  }

  lemma {:induction false} SplitFilters(series: Series, splitAtMs: int)
    requires Aligned(series) && NoReturn(series.timestamps, splitAtMs)
    ensures SplitSeries(series, splitAtMs) == Halves(Side(series, splitAtMs, true), Side(series, splitAtMs, false))
    decreases |series.timestamps|
  {
    if series.timestamps != [] {
      if series.timestamps[0] >= splitAtMs {
        SideOfAll(series, splitAtMs, true);
      } else {
        var rest := Series(series.timestamps[1..], series.values[1..]);
        SplitFilters(rest, splitAtMs);
        SplitSkips(series, splitAtMs);
      }
    }
  }

  lemma SplitSkips(series: Series, splitAtMs: int)
    requires Aligned(series) && series.timestamps != [] && series.timestamps[0] < splitAtMs
    ensures var rest := SplitSeries(Series(series.timestamps[1..], series.values[1..]), splitAtMs);
      SplitSeries(series, splitAtMs) == Halves(rest.current,
        Series([series.timestamps[0]] + rest.previous.timestamps, [series.values[0]] + rest.previous.values))
  {
    var cut := Cut(series.timestamps[1..], splitAtMs);
    assert series.timestamps[1..][cut..] == series.timestamps[cut + 1..];
    assert series.values[1..][cut..] == series.values[cut + 1..];
    assert series.timestamps[..cut + 1] == [series.timestamps[0]] + series.timestamps[1..][..cut];
    assert series.values[..cut + 1] == [series.values[0]] + series.values[1..][..cut];
  }

  /** Cutting at the first late point is filtering by the split exactly when no timestamp falls back before it. */
  lemma SplitIsFilter(series: Series, splitAtMs: int)
    requires Aligned(series)
    ensures SplitSeries(series, splitAtMs) == Halves(Side(series, splitAtMs, true), Side(series, splitAtMs, false))
       <==> NoReturn(series.timestamps, splitAtMs)
    ensures Ascending(series.timestamps) ==> NoReturn(series.timestamps, splitAtMs)
  {
    if NoReturn(series.timestamps, splitAtMs) {
      SplitFilters(series, splitAtMs);
    }
    if SplitSeries(series, splitAtMs) == Halves(Side(series, splitAtMs, true), Side(series, splitAtMs, false)) {
      var late, cut := Side(series, splitAtMs, true).timestamps, Cut(series.timestamps, splitAtMs);
      assert late == series.timestamps[cut..];
      forall j | cut <= j < |series.timestamps| ensures series.timestamps[j] >= splitAtMs {
        assert series.timestamps[j] == late[j - cut] && late[j - cut] in late;
      }
    }
  }

  // ---- Aggregates ----

  datatype Aggregate = Average | Total | Greatest

  function Sum(values: seq<real>): real {
    if values == [] then 0.0 else Sum(values[..|values| - 1]) + values[|values| - 1]
  }

  function Max(values: seq<real>): real
    requires values != []
  {
    var n := |values| - 1;
    if n == 0 then values[0] else if Max(values[..n]) > values[n] then Max(values[..n]) else values[n]
  }

  function AggregateValues(values: seq<real>, aggregate: Aggregate): Option<real> {
    if values == [] then None
    else match aggregate
         case Average => Some(Sum(values) / |values| as real)
         case Total => Some(Sum(values))
         case Greatest => Some(Max(values))
  }

  function AggregateSeries(series: Series, aggregate: Aggregate): Option<real> {
    AggregateValues(series.values, aggregate)
  }

  lemma {:induction false} SumSplits(a: seq<real>, b: seq<real>)
    ensures Sum(a + b) == Sum(a) + Sum(b)
  {
    if b == [] {
      assert a + b == a;
    } else {
      SumSplits(a, b[..|b| - 1]);
      assert (a + b)[..|a + b| - 1] == a + b[..|b| - 1];
    }
  }

  lemma {:induction false} MaxIsGreatest(values: seq<real>)
    requires values != []
    ensures Max(values) in values && forall v :: v in values ==> v <= Max(values)
  {
    var n := |values| - 1;
    MaxStep(values);
    InInit(values);
    hide Max;
    if n > 0 {
      MaxIsGreatest(values[..n]);
    }
  }

  lemma MaxStep(values: seq<real>)
    requires values != []
    ensures var n := |values| - 1;
      Max(values) == if n > 0 && Max(values[..n]) > values[n] then Max(values[..n]) else values[n]
  {}

  lemma InInit<T>(s: seq<T>)
    requires s != []
    ensures forall x :: x in s <==> x in s[..|s| - 1] || x == s[|s| - 1]
  {
    assert s == s[..|s| - 1] + [s[|s| - 1]];
  }

  lemma MaxSplits(a: seq<real>, b: seq<real>)
    requires a != [] && b != []
    ensures Max(a + b) == if Max(a) > Max(b) then Max(a) else Max(b)
  {
    MaxIsGreatest(a);
    MaxIsGreatest(b);
    MaxIsGreatest(a + b);
    assert Max(a) in a + b && Max(b) in a + b;
  }

  lemma AverageWeighs(values: seq<real>)
    requires values != []
    ensures AggregateValues(values, Average).value * |values| as real == Sum(values)
  {}

  /** What two parts contribute to their whole: an absent part leaves the other, two present parts join. */
  function Join(a: Option<real>, b: Option<real>, join: (real, real) -> real): Option<real> {
    if a.None? then b else if b.None? then a else Some(join(a.value, b.value))
  }

  function Weighed(x: real, m: nat, y: real, n: nat): real
    requires m + n > 0
  {
    (x * m as real + y * n as real) / (m + n) as real
  }

  /** Cutting loses no point, whatever the order of the timestamps. */
  lemma HalvesAreTheSeries(series: Series, splitAtMs: int)
    requires Aligned(series)
    ensures var h := SplitSeries(series, splitAtMs);
      && h.previous.values + h.current.values == series.values
      && h.previous.timestamps + h.current.timestamps == series.timestamps
      && Aligned(h.previous) && Aligned(h.current)
  {}

  lemma AveragesWeigh(a: seq<real>, b: seq<real>)
    requires a != [] && b != []
    ensures AggregateValues(a + b, Average)
         == Some(Weighed(AggregateValues(a, Average).value, |a|, AggregateValues(b, Average).value, |b|))
  {
    SumSplits(a, b);
    AverageWeighs(a);
    AverageWeighs(b);
  }

  /** One value is its own average, sum and maximum; of no values there is none of them. */
  lemma AggregateOfOne(x: real, aggregate: Aggregate)
    ensures AggregateValues([x], aggregate) == Some(x) && AggregateValues([], aggregate) == None
  {
    assert Sum([x]) == Sum([x][..0]) + x && [x][..0] == [];
  }

  predicate Recombines(whole: seq<real>, a: seq<real>, b: seq<real>) {
    && AggregateValues(whole, Total) == Join(AggregateValues(a, Total), AggregateValues(b, Total), (x, y) => x + y)
    && AggregateValues(whole, Greatest)
         == Join(AggregateValues(a, Greatest), AggregateValues(b, Greatest), (x, y) => if x > y then x else y)
    && (a != [] && b != [] ==>
         AggregateValues(whole, Average)
           == Some(Weighed(AggregateValues(a, Average).value, |a|, AggregateValues(b, Average).value, |b|)))
  }

  lemma PartsRecombine(a: seq<real>, b: seq<real>)
    ensures Recombines(a + b, a, b)
  {
    if a == [] {
      assert a + b == b;
    } else if b == [] {
      assert a + b == a;
    } else {
      SumSplits(a, b);
      MaxSplits(a, b);
      AveragesWeigh(a, b);
    }
  }

  /** The halves of any series recombine: sums add, the greater maximum wins, averages weigh by their lengths. */
  lemma HalvesRecombine(series: Series, splitAtMs: int)
    requires Aligned(series)
    ensures var h := SplitSeries(series, splitAtMs); Recombines(series.values, h.previous.values, h.current.values)
  {
    HalvesAreTheSeries(series, splitAtMs);
    var h := SplitSeries(series, splitAtMs);
    PartsRecombine(h.previous.values, h.current.values);
  }

  // ---- Comparing the halves ----

  /** A JavaScript number, as far as the comparison tells them apart. */
  datatype Value = Finite(x: real) | NonFinite

  datatype Change = Up(ratio: real) | Down(ratio: real) | Flat(ratio: real) | New | Unavailable

  const FLAT_RATIO := 0.01

  function CompareWindows(current: Option<Value>, previous: Option<Value>): Change {
    if current.None? || previous.None? || current.value.NonFinite? || previous.value.NonFinite? then Unavailable
    else if previous.value.x < 0.0 then Unavailable
    else if previous.value.x == 0.0 then (if current.value.x == 0.0 then Flat(0.0) else New)
    else
      var ratio := (current.value.x - previous.value.x) / previous.value.x;
      if -FLAT_RATIO < ratio < FLAT_RATIO then Flat(ratio)
      else if ratio > 0.0 then Up(ratio) else Down(ratio)
  }

  lemma RatioBounds(c: real, p: real, bound: real)
    requires p > 0.0
    ensures (c - p) / p >= bound <==> c >= p + bound * p
    ensures (c - p) / p <= bound <==> c <= p + bound * p
  {
    var ratio := (c - p) / p;
    assert ratio * p == c - p;
    if ratio >= bound {
      assert (ratio - bound) * p >= 0.0;
    }
    if ratio <= bound {
      assert (bound - ratio) * p >= 0.0;
    }
    if ratio < bound {
      assert (bound - ratio) * p > 0.0;
    }
    if ratio > bound {
      assert (ratio - bound) * p > 0.0;
    }
  }

  /** Up means at least one per cent more than before, down at least one per cent less, whatever the sizes. */
  lemma ComparisonMeans(c: real, p: real)
    ensures var change := CompareWindows(Some(Finite(c)), Some(Finite(p)));
      && (change.Unavailable? <==> p < 0.0)
      && (change.New? <==> p == 0.0 && c != 0.0)
      && (p == 0.0 && c == 0.0 ==> change == Flat(0.0))
      && (change.Up? <==> p > 0.0 && c >= p + 0.01 * p)
      && (change.Down? <==> p > 0.0 && c <= p - 0.01 * p)
      && (change.Flat? ==> change.ratio * p == c - p)
      && (change.Up? || change.Down? ==> change.ratio * p == c - p)
  {
    if p > 0.0 {
      RatioBounds(c, p, 0.01);
      RatioBounds(c, p, -0.01);
    }
  }

  /** Without a finite figure on both sides there is no comparison. */
  lemma NoComparison(current: Option<Value>, previous: Option<Value>)
    ensures current == None || previous == None || current == Some(NonFinite) || previous == Some(NonFinite) ==>
      CompareWindows(current, previous) == Unavailable
  {}

  lemma RatioScales(c: real, p: real, k: real)
    requires p > 0.0 && k > 0.0
    ensures k * p > 0.0 && (k * c - k * p) / (k * p) == (c - p) / p
  {
    var ratio := (c - p) / p;
    assert ratio * p == c - p;
    assert ratio * (k * p) == k * c - k * p;
  }

  /** The verdict does not depend on the unit. */
  lemma ComparisonIsUnitFree(c: real, p: real, k: real)
    requires k > 0.0
    ensures CompareWindows(Some(Finite(k * c)), Some(Finite(k * p))) == CompareWindows(Some(Finite(c)), Some(Finite(p)))
  {
    if p > 0.0 {
      RatioScales(c, p, k);
    } else if p < 0.0 {
      assert k * p < 0.0;
    } else {
      assert k * p == 0.0 && (k * c == 0.0 <==> c == 0.0);
    }
  }

  datatype WindowedMetric = WindowedMetric(current: Option<real>, previous: Option<real>, change: Change)

  function AsValue(x: Option<real>): Option<Value> {
    if x.Some? then Some(Finite(x.value)) else None
  }

  function WindowedMetricOf(series: Series, split: DoubleWindow, aggregate: Aggregate): WindowedMetric {
    var halves := SplitSeries(series, split.splitAtMs);
    var current := AggregateSeries(halves.current, aggregate);
    var previous := AggregateSeries(halves.previous, aggregate);
    WindowedMetric(current, previous, CompareWindows(AsValue(current), AsValue(previous)))
  }

  /**
   * Of an ascending series of period-stamped points inside the fetched window, the metric's two figures are those of
   * the points whose whole period lies in the current half and in the previous half.
   */
  lemma MetricReadsTheHalves(series: Series, range: ReportRange, nowMs: int, aggregate: Aggregate)
    requires Aligned(series) && Ascending(series.timestamps)
    requires var w := DoubleWindowOf(range, nowMs);
      forall t :: t in series.timestamps ==> w.fetch.start <= t < w.fetch.end && t % (PeriodSeconds(range) * 1000) == 0
    ensures var w, periodMs := DoubleWindowOf(range, nowMs), PeriodSeconds(range) * 1000;
      var late, early := Side(series, w.splitAtMs, true), Side(series, w.splitAtMs, false);
      var metric := WindowedMetricOf(series, w, aggregate);
      && metric.current == AggregateSeries(late, aggregate) && metric.previous == AggregateSeries(early, aggregate)
      && (forall t :: t in late.timestamps ==> Holds(w.current, t, periodMs))
      && (forall t :: t in early.timestamps ==> Holds(w.previous, t, periodMs))
      && (metric.current.None? || metric.previous.None? ==> metric.change == Unavailable)
      && (metric.current.Some? && metric.previous.Some? ==>
            metric.change == CompareWindows(Some(Finite(metric.current.value)), Some(Finite(metric.previous.value))))
  {
    var w := DoubleWindowOf(range, nowMs);
    SplitIsFilter(series, w.splitAtMs);
    SideIsFrom(series, w.splitAtMs, false);
    SideIsFrom(series, w.splitAtMs, true);
    forall t | t in Side(series, w.splitAtMs, true).timestamps ensures Holds(w.current, t, PeriodSeconds(range) * 1000) {
      PeriodsFallInOneHalf(range, nowMs, t);
    }
    forall t | t in Side(series, w.splitAtMs, false).timestamps ensures Holds(w.previous, t, PeriodSeconds(range) * 1000) {
      PeriodsFallInOneHalf(range, nowMs, t);
    }
  }

  lemma {:induction false} SideIsFrom(series: Series, splitAtMs: int, late: bool)
    requires Aligned(series)
    ensures forall t :: t in Side(series, splitAtMs, late).timestamps ==> t in series.timestamps
    decreases |series.timestamps|
  {
    if series.timestamps != [] {
      SideIsFrom(Series(series.timestamps[1..], series.values[1..]), splitAtMs, late);
    }
  }
}
