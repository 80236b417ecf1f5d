/** The baselines job: points grouped into the week's buckets, and a pass whose writes a cap bounds. */
module BaselinesJob {
  import opened Collections
  import opened Wrappers
  import opened Baseline

  /** A stored point; an unmeasured interval has no value. */
  datatype Point = Point(intervalStart: int, value: Option<real>)

  const CAP: nat := 500

  /** The measured values of one bucket, in the order of the points. */
  function BucketValues(points: seq<Point>, bucket: nat): seq<real> {
    if points == [] then []
    else
      var last := points[|points| - 1];
      BucketValues(points[..|points| - 1], bucket)
      + (if last.value.Some? && BucketOf(last.intervalStart) == bucket then [last.value.value] else [])
  }

  function Measured(points: seq<Point>): nat {
    if points == [] then 0
    else Measured(points[..|points| - 1]) + (if points[|points| - 1].value.Some? then 1 else 0)
  }

  /** How many values the buckets from 0 up to n hold together. */
  function ValuesBelow(points: seq<Point>, n: nat): nat {
    if n == 0 then 0 else ValuesBelow(points, n - 1) + |BucketValues(points, n - 1)|
  }

  ghost predicate Partitions(buckets: map<nat, seq<real>>, points: seq<Point>) {
    && (forall b :: b in buckets ==> b < BUCKETS && buckets[b] == BucketValues(points, b))
    && (forall b :: b !in buckets ==> BucketValues(points, b) == [])
    && (forall b :: b in buckets ==> buckets[b] != [])
  }

  method Bucketize(points: seq<Point>) returns (buckets: map<nat, seq<real>>)
    ensures Partitions(buckets, points)
  {
    buckets := map[];
    for i := 0 to |points|
      invariant Partitions(buckets, points[..i])
    {
      assert points[..i + 1][..i] == points[..i];
      if points[i].value.Some? {
        var bucket := BucketOf(points[i].intervalStart);
        if bucket in buckets {
          buckets := buckets[bucket := buckets[bucket] + [points[i].value.value]];
        } else {
          buckets := buckets[bucket := [points[i].value.value]];
        }
      }
    }
    assert points[..|points|] == points;
  }

  /** A measured point of the bucket: of the hour of the week it begins in, counted from the Sunday before the epoch. */
  predicate Falls(p: Point, bucket: nat) {
    p.value.Some? && (p.intervalStart / 3_600_000 + 96) % 168 == bucket
  }

  /** The values are those of the points of the bucket, each once and in order; `places` says which point each is of. */
  ghost predicate AreValues(values: seq<real>, places: seq<nat>, points: seq<Point>, bucket: nat) {
    && |places| == |values|
    && (forall k, l :: 0 <= k < l < |places| ==> places[k] < places[l])
    && (forall k :: 0 <= k < |places| ==>
          places[k] < |points| && Falls(points[places[k]], bucket) && points[places[k]].value == Some(values[k]))
    && (forall i: nat :: i < |points| && Falls(points[i], bucket) ==> i in places)
  }

  lemma OneValueMore(values: seq<real>, places: seq<nat>, points: seq<Point>, p: Point, bucket: nat)
    requires AreValues(values, places, points, bucket)
    ensures Falls(p, bucket) ==> AreValues(values + [p.value.value], places + [|points|], points + [p], bucket)
    ensures !Falls(p, bucket) ==> AreValues(values, places, points + [p], bucket)
  {
    var more := points + [p];
    assert forall i :: 0 <= i < |points| ==> more[i] == points[i];
    if Falls(p, bucket) {
      hide Falls;
      var longer := places + [|points|];
      forall i: nat | i < |more| && Falls(more[i], bucket) ensures i in longer {
        if i < |points| {
          assert i in places;
        } else {
          assert longer[|places|] == i;
        }
      }
    }
  }

  /** A bucket holds the values of its measured points, each once, in the order of the points. */
  lemma {:induction false} BucketInOrder(points: seq<Point>, bucket: nat) returns (places: seq<nat>)
    ensures AreValues(BucketValues(points, bucket), places, points, bucket)
  {
    places := [];
    if points != [] {
      hide AreValues;
      var n := |points| - 1;
      places := BucketInOrder(points[..n], bucket);
      FallsIsOwn(points[n], bucket);
      AllButLast(points);
      OneValueMore(BucketValues(points[..n], bucket), places, points[..n], points[n], bucket);
      if Falls(points[n], bucket) {
        places := places + [n];
      } else {
        assert BucketValues(points[..n], bucket) + [] == BucketValues(points[..n], bucket);
      }
    }
  }

  lemma FallsIsOwn(p: Point, bucket: nat)
    ensures Falls(p, bucket) <==> p.value.Some? && BucketOf(p.intervalStart) == bucket
  {
    BucketCountsHours(p.intervalStart);
  }

  lemma {:induction false} ValuesBelowStep(before: seq<Point>, last: Point, n: nat)
    ensures ValuesBelow(before + [last], n)
         == ValuesBelow(before, n) + (if last.value.Some? && BucketOf(last.intervalStart) < n then 1 else 0)
  {
    if n > 0 {
      ValuesBelowStep(before, last, n - 1);
      assert (before + [last])[..|before|] == before;
    }
  }

  /** Nothing measured is lost or counted twice: the 168 buckets together hold exactly the measured points. */
  lemma {:induction false} BucketsConserve(points: seq<Point>)
    ensures ValuesBelow(points, BUCKETS) == Measured(points)
  {
    if points == [] {
      NothingBelow(BUCKETS);
    } else {
      var before, last := points[..|points| - 1], points[|points| - 1];
      assert points == before + [last];
      BucketsConserve(before);
      ValuesBelowStep(before, last, BUCKETS);
    }
  }

  lemma {:induction false} NothingBelow(n: nat)
    ensures ValuesBelow([], n) == 0
  {
    if n > 0 {
      NothingBelow(n - 1);
    }
  }

  predicate HasBaseline(points: seq<Point>, bucket: nat) {
    BaselineOf(BucketValues(points, bucket)).Some?
  }

  /** The baselines of a series: one for every bucket with enough values. */
  ghost predicate AreBaselines(out: map<nat, Normal>, points: seq<Point>) {
    && (forall b: nat :: b in out <==> b < BUCKETS && HasBaseline(points, b))
    && (forall b: nat :: b in out ==> BaselineOf(BucketValues(points, b)) == Some(out[b]))
  }

  method BaselinesOf(points: seq<Point>) returns (out: map<nat, Normal>)
    ensures AreBaselines(out, points) && |out| <= BUCKETS
  {
    var buckets := Bucketize(points);
    out := map[];
    var unvisited := buckets.Keys;
    while unvisited != {}
      invariant unvisited <= buckets.Keys
      invariant forall b :: b in out <==> b in buckets && b !in unvisited && BaselineOf(buckets[b]).Some?
      invariant forall b :: b in out ==> out[b] == BaselineOf(buckets[b]).value
      decreases unvisited
    {
      var bucket :| bucket in unvisited;
      unvisited := unvisited - {bucket};
      var baseline := BaselineOf(buckets[bucket]);
      if baseline.Some? {
        out := out[bucket := baseline.value];
      }
    }
    assert BaselineOf([]).None?;
    AtMostBuckets(out);
  }

  function Below(n: nat): (r: set<nat>)
    ensures |r| == n && forall b: nat :: b in r <==> b < n
  {
    if n == 0 then {} else Below(n - 1) + {n - 1}
  }

  lemma AtMostBuckets(out: map<nat, Normal>)
    requires forall b :: b in out ==> b < BUCKETS
    ensures |out| <= BUCKETS
  {
    SubsetSize(out.Keys, Below(BUCKETS));
    assert |out| == |out.Keys|;
  }

  // ---- The pass ----

  /** The buckets of a series that get a row: writing its baselines writes one for each. */
  function RowsOf(points: seq<Point>): (r: set<nat>) {
    set b: nat | b < BUCKETS && HasBaseline(points, b)
  }

  function Rows(series: seq<seq<Point>>): nat {
    if series == [] then 0 else Rows(series[..|series| - 1]) + |RowsOf(series[|series| - 1])|
  }

  lemma RowsAreBounded(points: seq<Point>)
    ensures |RowsOf(points)| <= BUCKETS
  {
    SubsetSize(RowsOf(points), Below(BUCKETS));
  }

  /** The series of every metric's subjects, in the order the two loops reach them. */
  function Flatten(metrics: seq<seq<seq<Point>>>): seq<seq<Point>> {
    if metrics == [] then [] else Flatten(metrics[..|metrics| - 1]) + metrics[|metrics| - 1]
  }

  /** The pass went through `covered` series, none of which could have overrun the cap, and stopped only when the next could. */
  predicate Bounded(all: seq<seq<Point>>, cap: int, covered: nat, written: nat, truncated: bool) {
    && covered <= |all|
    && written == Rows(all[..covered])
    && (forall k :: 0 <= k < covered ==> Rows(all[..k]) + 168 <= cap)
    && (truncated ==> covered < |all| && written + 168 > cap)
    && (!truncated ==> covered == |all|)
  }

  /** What was handed to the store: for each series in turn, its baselines. */
  ghost predicate Wrote(rows: seq<map<nat, Normal>>, all: seq<seq<Point>>, covered: nat) {
    |rows| == covered <= |all| && forall k :: 0 <= k < covered ==> AreBaselines(rows[k], all[k])
  }

  lemma WroteOneMore(rows: seq<map<nat, Normal>>, before: seq<seq<Point>>, baselines: map<nat, Normal>, next: seq<Point>)
    requires Wrote(rows, before, |before|) && AreBaselines(baselines, next)
    ensures Wrote(rows + [baselines], before + [next], |before| + 1)
  {}

  /**
   * The two loops of the job over the stored series. What the source reads from the history store is given, and
   * `rows` is what it hands to the store; writing a series' baselines writes one row for each entry.
   */
  method RunBaselinesJob(metrics: seq<seq<seq<Point>>>, cap: int)
    returns (covered: nat, written: nat, truncated: bool, rows: seq<map<nat, Normal>>)
    ensures Bounded(Flatten(metrics), cap, covered, written, truncated)
    ensures Wrote(rows, Flatten(metrics), covered)
  {
    hide UpTo, AreBaselines, BaselineOf, BucketValues;
    written, covered, truncated, rows := 0, 0, false, [];
    ghost var all := Flatten(metrics);
    for m := 0 to |metrics|
      invariant !truncated && Flatten(metrics[..m]) <= all
      invariant Bounded(Flatten(metrics[..m]), cap, covered, written, false)
      invariant Wrote(rows, Flatten(metrics[..m]), covered)
    {
      ghost var done := Flatten(metrics[..m]);
      var subjects := metrics[m];
      FlattenStep(metrics, m);
      for k := 0 to |subjects|
        invariant !truncated && covered == |UpTo(done, subjects, k)|
        invariant Bounded(UpTo(done, subjects, k), cap, covered, written, false)
        invariant Wrote(rows, UpTo(done, subjects, k), covered)
      {
        SeriesStep(done, subjects, all, k);
        if written + BUCKETS > cap {
          truncated := true;
          TruncatedThere(UpTo(done, subjects, k), all, cap, written);
          return;
        }
        covered := covered + 1;
        var baselines := BaselinesOf(subjects[k]);
        BoundedStep(UpTo(done, subjects, k), subjects[k], cap, written, baselines);
        WroteOneMore(rows, UpTo(done, subjects, k), baselines, subjects[k]);
        written := written + |baselines|;
        rows := rows + [baselines];
      }
    }
    assert metrics[..|metrics|] == metrics;
  }

  /** The series before the k-th of the metric at hand. */
  function UpTo(done: seq<seq<Point>>, subjects: seq<seq<Point>>, k: nat): seq<seq<Point>>
    requires k <= |subjects|
  {
    done + subjects[..k]
  }

  lemma FlattenStep(metrics: seq<seq<seq<Point>>>, m: nat)
    requires m < |metrics|
    ensures var done := Flatten(metrics[..m]);
      && UpTo(done, metrics[m], 0) == done
      && UpTo(done, metrics[m], |metrics[m]|) == done + metrics[m] == Flatten(metrics[..m + 1])
      && Flatten(metrics[..m + 1]) <= Flatten(metrics)
  {
    assert metrics[..m + 1][..m] == metrics[..m];
    assert metrics[m][..|metrics[m]|] == metrics[m];
    FlattenPrefix(metrics, m + 1);
  }

  lemma {:induction false} FlattenPrefix(metrics: seq<seq<seq<Point>>>, m: nat)
    requires m <= |metrics|
    ensures Flatten(metrics[..m]) <= Flatten(metrics)
    decreases |metrics| - m
  {
    if m == |metrics| {
      assert metrics[..m] == metrics;
    } else {
      FlattenPrefix(metrics, m + 1);
      assert metrics[..m + 1][..m] == metrics[..m];
    }
  }

  lemma SeriesStep(done: seq<seq<Point>>, subjects: seq<seq<Point>>, all: seq<seq<Point>>, k: nat)
    requires done + subjects <= all && k < |subjects|
    ensures UpTo(done, subjects, k + 1) == UpTo(done, subjects, k) + [subjects[k]]
    ensures UpTo(done, subjects, k) <= all && |UpTo(done, subjects, k)| < |all|
  {}

  lemma RowsStep(before: seq<seq<Point>>, next: seq<Point>)
    ensures Rows(before + [next]) == Rows(before) + |RowsOf(next)|
  {
    assert (before + [next])[..|before|] == before;
  }

  lemma TruncatedThere(before: seq<seq<Point>>, all: seq<seq<Point>>, cap: int, written: nat)
    requires before <= all && |before| < |all|
    requires Bounded(before, cap, |before|, written, false) && written + BUCKETS > cap
    ensures Bounded(all, cap, |before|, written, true)
    ensures forall k :: 0 <= k < |before| ==> all[k] == before[k]
  {
    assert all[..|before|] == before[..|before|];
    forall k | 0 <= k < |before| ensures Rows(all[..k]) + BUCKETS <= cap {
      assert all[..k] == before[..k];
    }
  }

  /** One more series within the cap keeps the pass bounded. */
  lemma BoundedStep(before: seq<seq<Point>>, next: seq<Point>, cap: int, written: nat, baselines: map<nat, Normal>)
    requires Bounded(before, cap, |before|, written, false) && written + BUCKETS <= cap
    requires AreBaselines(baselines, next)
    ensures Bounded(before + [next], cap, |before| + 1, written + |baselines|, false)
  {
    var after := before + [next];
    RowsStep(before, next);
    assert baselines.Keys == RowsOf(next);
    assert after[..|after|] == after && before[..|before|] == before;
    forall k | 0 <= k < |after| ensures Rows(after[..k]) + BUCKETS <= cap {
      if k < |before| {
        assert after[..k] == before[..k];
      } else {
        assert after[..k] == before;
      }
    }
  }

  /** So a pass never writes more rows than its cap allows, whatever the series hold. */
  lemma NeverOverCap(all: seq<seq<Point>>, cap: int, covered: nat, written: nat, truncated: bool)
    requires Bounded(all, cap, covered, written, truncated)
    ensures written == 0 || written <= cap
    ensures cap == CAP ==> written <= 500
  {
    if covered > 0 {
      assert all[..covered][..covered - 1] == all[..covered - 1];
      RowsAreBounded(all[covered - 1]);
    }
  }
}
