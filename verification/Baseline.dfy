/** Medians, deviations and robust scores, over exact real numbers. */
module Baseline {
  import opened Arithmetic
  import opened Collections
  import opened Wrappers
  import opened Sorting

  const BUCKETS: nat := 168
  const MIN_SAMPLES: nat := 8
  const MAD_SCALE: real := 0.6745
  const ANOMALY_Z: real := 3.0

  // ---- The hour of the week ----

  function Day(t: int): int { t / 86_400_000 }

  /** WeekDay of ECMA-262, section 21.4.1: the epoch was a Thursday. */
  function UtcDay(t: int): int { (Day(t) + 4) % 7 }

  function UtcHours(t: int): int { t / 3_600_000 % 24 }

  function BucketOf(t: int): (b: nat)
    ensures b < BUCKETS
  {
    UtcDay(t) * 24 + UtcHours(t)
  }

  /** It counts hours, modulo the week, from the Sunday before the epoch. */
  lemma BucketCountsHours(t: int)
    ensures BucketOf(t) == (t / 3_600_000 + 96) % 168
  {
    var h := t / 3_600_000;
    var d, r := h / 24, h % 24;
    DivModUnique(t, 86_400_000, d, 3_600_000 * r + t % 3_600_000);
    var w, e := (d + 4) / 7, (d + 4) % 7;
    DivModUnique(h + 96, 168, w, 24 * e + r);
  }

  lemma BucketIsWeekly(t: int, weeks: int)
    ensures BucketOf(t + weeks * 604_800_000) == BucketOf(t)
  {
    BucketCountsHours(t);
    BucketCountsHours(t + weeks * 604_800_000);
    var h, r := t / 3_600_000, t % 3_600_000;
    assert t + weeks * 604_800_000 == (h + 168 * weeks) * 3_600_000 + r;
    assert (t + weeks * 604_800_000) / 3_600_000 == h + 168 * weeks;
    WeeksVanish(h + 96, weeks);
  }

  lemma WeeksVanish(hours: int, weeks: int)
    ensures (hours + 168 * weeks) % 168 == hours % 168
  {}

  // ---- The median ----

  predicate AtMost(a: real, b: real) { a <= b }

  function Ascending(values: seq<real>): (r: seq<real>)
    ensures |r| == |values|
  {
    Sort(values, AtMost)
  }

  function Middle(sorted: seq<real>): real
    requires sorted != []
  {
    var middle := |sorted| / 2;
    if |sorted| % 2 == 0 then (sorted[middle - 1] + sorted[middle]) / 2.0 else sorted[middle]
  }

  function Median(values: seq<real>): Option<real> {
    if |values| == 0 then None else Some(Middle(Ascending(values)))
  }

  function Abs(x: real): real { if x < 0.0 then -x else x }

  function Deviations(values: seq<real>, centre: real): (r: seq<real>)
    ensures |r| == |values| && forall i :: 0 <= i < |r| ==> r[i] == Abs(values[i] - centre)
  {
    seq(|values|, i requires 0 <= i < |values| => Abs(values[i] - centre))
  }

  function MedianAbsoluteDeviation(values: seq<real>, centre: real): Option<real> {
    Median(Deviations(values, centre))
  }

  datatype Normal = Normal(median: real, mad: real, samples: nat)

  function BaselineOf(values: seq<real>): Option<Normal> {
    if |values| < MIN_SAMPLES then None
    else
      match Median(values)
      case None => None
      case Some(centre) =>
        var mad := MedianAbsoluteDeviation(values, centre);
        Some(Normal(centre, if mad.Some? then mad.value else 0.0, |values|))
  }

  function RobustZ(value: real, b: Normal): Option<real> {
    if b.mad == 0.0 then None else Some(MAD_SCALE * (value - b.median) / b.mad)
  }

  predicate IsSurge(value: real, b: Normal) {
    RobustZ(value, b).Some? && RobustZ(value, b).value >= ANOMALY_Z
  }

  lemma AscendingIsOrdered(values: seq<real>)
    ensures OrderedBy(Ascending(values), AtMost) && multiset(Ascending(values)) == multiset(values)
  {
    SortOrders(values, AtMost);
    SortElements(values, AtMost);
  }

  /** The median does not depend on the order of the observations. */
  lemma MedianOfPermutation(a: seq<real>, b: seq<real>)
    requires multiset(a) == multiset(b)
    ensures Median(a) == Median(b)
  {
    AscendingIsOrdered(a);
    AscendingIsOrdered(b);
    OrderedIsUnique(Ascending(a), Ascending(b), AtMost);
    assert |multiset(a)| == |multiset(b)|;
  }

  // ---- Breakdown ----

  function CountFrom(s: seq<real>, lo: real): nat {
    if s == [] then 0 else (if s[0] >= lo then 1 else 0) + CountFrom(s[1..], lo)
  }

  function CountUpTo(s: seq<real>, hi: real): nat {
    if s == [] then 0 else (if s[0] <= hi then 1 else 0) + CountUpTo(s[1..], hi)
  }

  lemma {:induction false} InsertCounts(x: real, s: seq<real>, lo: real, hi: real)
    ensures CountFrom(Insert(x, s, AtMost), lo) == CountFrom(s, lo) + (if x >= lo then 1 else 0)
    ensures CountUpTo(Insert(x, s, AtMost), hi) == CountUpTo(s, hi) + (if x <= hi then 1 else 0)
  {
    if s == [] || AtMost(x, s[0]) {
      assert ([x] + s)[1..] == s;
    } else {
      InsertCounts(x, s[1..], lo, hi);
      assert Insert(x, s, AtMost)[1..] == Insert(x, s[1..], AtMost);
    }
  }

  lemma {:induction false} AscendingCounts(s: seq<real>, lo: real, hi: real)
    ensures CountFrom(Ascending(s), lo) == CountFrom(s, lo) && CountUpTo(Ascending(s), hi) == CountUpTo(s, hi)
  {
    if s != [] {
      AscendingCounts(s[1..], lo, hi);
      InsertCounts(s[0], Ascending(s[1..]), lo, hi);
    }
  }

  lemma {:induction false} CountsAreBounded(s: seq<real>, lo: real, hi: real)
    ensures CountFrom(s, lo) <= |s| && CountUpTo(s, hi) <= |s|
  {
    if s != [] {
      CountsAreBounded(s[1..], lo, hi);
    }
  }

  /** In an ascending list, an element under lo has only the elements behind it to reach lo. */
  lemma {:induction false} FewFrom(s: seq<real>, k: nat, lo: real)
    requires OrderedBy(s, AtMost) && k < |s| && s[k] < lo
    ensures CountFrom(s, lo) <= |s| - k - 1
  {
    if k == 0 {
      CountsAreBounded(s[1..], lo, lo);
    } else {
      assert AtMost(s[0], s[k]);
      FewFrom(s[1..], k - 1, lo);
    }
  }

  lemma {:induction false} FewUpTo(s: seq<real>, k: nat, hi: real)
    requires OrderedBy(s, AtMost) && k < |s| && s[k] > hi
    ensures CountUpTo(s, hi) <= k
  {
    if k == 0 {
      NoneUpTo(s, hi);
    } else {
      FewUpTo(s[1..], k - 1, hi);
    }
  }

  lemma {:induction false} NoneUpTo(s: seq<real>, hi: real)
    requires OrderedBy(s, AtMost) && s != [] && s[0] > hi
    ensures CountUpTo(s, hi) == 0
  {
    if |s| > 1 {
      assert AtMost(s[0], s[1]);
      NoneUpTo(s[1..], hi);
    } else {
      assert s[1..] == [];
    }
  }

  /** A bound that more than half of the values respect, the median respects. */
  lemma MajorityBoundsMedian(values: seq<real>, lo: real, hi: real)
    requires values != []
    ensures 2 * CountFrom(values, lo) > |values| ==> Median(values).value >= lo
    ensures 2 * CountUpTo(values, hi) > |values| ==> Median(values).value <= hi
  {
    var s := Ascending(values);
    AscendingIsOrdered(values);
    AscendingCounts(values, lo, hi);
    var upper := |s| / 2;
    var lower := if |s| % 2 == 0 then upper - 1 else upper;
    if s[upper] < lo { FewFrom(s, upper, lo); }
    if s[lower] < lo { FewFrom(s, lower, lo); }
    if s[upper] > hi { FewUpTo(s, upper, hi); }
    if s[lower] > hi { FewUpTo(s, lower, hi); }
  }

  function Untouched(a: seq<real>, b: seq<real>): nat
    requires |a| == |b|
  {
    if a == [] then 0 else (if a[0] == b[0] then 1 else 0) + Untouched(a[1..], b[1..])
  }

  lemma {:induction false} UntouchedCount(a: seq<real>, b: seq<real>, lo: real, hi: real)
    requires |a| == |b| && forall i :: 0 <= i < |a| && a[i] == b[i] ==> lo <= a[i] <= hi
    ensures CountFrom(b, lo) >= Untouched(a, b) && CountUpTo(b, hi) >= Untouched(a, b)
  {
    if a != [] {
      forall i | 0 <= i < |a[1..]| && a[1..][i] == b[1..][i] ensures lo <= a[1..][i] <= hi {
        assert a[i + 1] == b[i + 1];
      }
      UntouchedCount(a[1..], b[1..], lo, hi);
    }
  }

  /**
   * Breakdown: as long as fewer than half of the observations are corrupted, however badly, the median stays
   * between any bounds of the ones left untouched.
   */
  lemma MedianResistsCorruption(a: seq<real>, b: seq<real>, lo: real, hi: real)
    requires |a| == |b| && 2 * (|a| - Untouched(a, b)) < |a|
    requires forall i :: 0 <= i < |a| && a[i] == b[i] ==> lo <= a[i] <= hi
    ensures Median(b).Some? && lo <= Median(b).value <= hi
  {
    UntouchedCount(a, b, lo, hi);
    MajorityBoundsMedian(b, lo, hi);
  }

  lemma AbsWithin(x: real, m: real, lo: real, hi: real)
    requires lo <= x <= hi && lo <= m <= hi
    ensures Abs(x - m) <= hi - lo
  {}

  lemma DeviationsRest(values: seq<real>, m: real)
    requires values != []
    ensures Deviations(values, m)[1..] == Deviations(values[1..], m) && Deviations(values, m)[0] == Abs(values[0] - m)
  {}

  /** An untouched value is no farther from any centre within its bounds than they are apart. */
  lemma {:induction false} UntouchedDeviations(a: seq<real>, b: seq<real>, lo: real, hi: real, m: real)
    requires |a| == |b| && lo <= m <= hi && forall i :: 0 <= i < |a| && a[i] == b[i] ==> lo <= a[i] <= hi
    ensures CountUpTo(Deviations(b, m), hi - lo) >= Untouched(a, b)
  {
    if a != [] {
      forall i | 0 <= i < |a[1..]| && a[1..][i] == b[1..][i] ensures lo <= a[1..][i] <= hi {
        assert a[i + 1] == b[i + 1];
      }
      UntouchedDeviations(a[1..], b[1..], lo, hi, m);
      DeviationsRest(b, m);
      if a[0] == b[0] {
        AbsWithin(b[0], m, lo, hi);
      }
    }
  }

  /**
   * The spread is not inflated either: with fewer than half of the observations corrupted, however badly, the
   * median stays within the bounds of the untouched ones and the MAD is at most as wide as they are apart.
   * It can be deflated, down to nothing: SpreadCollapsesIff says by how many.
   */
  lemma MadResistsCorruption(a: seq<real>, b: seq<real>, lo: real, hi: real)
    requires |a| == |b| && 2 * (|a| - Untouched(a, b)) < |a|
    requires forall i :: 0 <= i < |a| && a[i] == b[i] ==> lo <= a[i] <= hi
    requires BaselineOf(b).Some?
    ensures lo <= BaselineOf(b).value.median <= hi && 0.0 <= BaselineOf(b).value.mad <= hi - lo
  {
    hide Median, Untouched, Abs, MedianAbsoluteDeviation, CountUpTo;
    MedianResistsCorruption(a, b, lo, hi);
    BaselineIs(b);
    UntouchedDeviations(a, b, lo, hi, BaselineOf(b).value.median);
    MajorityAtMost(Deviations(b, BaselineOf(b).value.median), |b|, Untouched(a, b), hi - lo);
    SpreadIsNonNegative(b);
  }

  lemma BaselineIs(values: seq<real>)
    requires BaselineOf(values).Some?
    ensures var b := BaselineOf(values).value;
      && values != [] && Some(b.median) == Median(values) && Some(b.mad) == Median(Deviations(values, b.median))
  {}

  lemma HasBaseline(values: seq<real>)
    ensures BaselineOf(values).Some? <==> |values| >= 8
  {}

  lemma MajorityAtMost(values: seq<real>, total: nat, untouched: nat, hi: real)
    requires |values| == total && 2 * (total - untouched) < total && CountUpTo(values, hi) >= untouched
    ensures Median(values).Some? && Median(values).value <= hi
  {
    MajorityBoundsMedian(values, hi, hi);
  }

  lemma SpreadIsNonNegative(values: seq<real>)
    requires BaselineOf(values).Some?
    ensures BaselineOf(values).value.mad >= 0.0
  {
    SpreadHalves(values);
  }

  // ---- Halves ----

  lemma {:induction false} ManyFrom(s: seq<real>, k: nat, lo: real)
    requires OrderedBy(s, AtMost) && k < |s| && s[k] >= lo
    ensures CountFrom(s, lo) >= |s| - k
  {
    if k > 0 {
      ManyFrom(s[1..], k - 1, lo);
    } else if |s| > 1 {
      assert AtMost(s[0], s[1]);
      ManyFrom(s[1..], 0, lo);
    }
  }

  lemma {:induction false} ManyUpTo(s: seq<real>, k: nat, hi: real)
    requires OrderedBy(s, AtMost) && k < |s| && s[k] <= hi
    ensures CountUpTo(s, hi) >= k + 1
  {
    if k > 0 {
      assert AtMost(s[0], s[k]);
      ManyUpTo(s[1..], k - 1, hi);
    }
  }

  /** At least half of the values reach the median, and at least half do not exceed it. */
  lemma MedianHalves(values: seq<real>)
    requires values != []
    ensures 2 * CountFrom(values, Median(values).value) >= |values|
    ensures 2 * CountUpTo(values, Median(values).value) >= |values|
  {
    var sorted, k := Ascending(values), |values| / 2;
    AscendingIsOrdered(values);
    AscendingCounts(values, Middle(sorted), Middle(sorted));
    if |values| % 2 == 0 {
      assert AtMost(sorted[k - 1], sorted[k]);
      ManyUpTo(sorted, k - 1, Middle(sorted));
    } else {
      ManyUpTo(sorted, k, Middle(sorted));
    }
    ManyFrom(sorted, k, Middle(sorted));
  }

  /** A baseline's spread: at least half of the observations lie within it of the median, and at least half no nearer. */
  lemma SpreadHalves(values: seq<real>)
    requires BaselineOf(values).Some?
    ensures var b := BaselineOf(values).value;
      && b.samples == |values| >= 8 && b.mad >= 0.0
      && 2 * CountUpTo(Deviations(values, b.median), b.mad) >= |values|
      && 2 * CountFrom(Deviations(values, b.median), b.mad) >= |values|
  {
    var deviations := Deviations(values, BaselineOf(values).value.median);
    MedianHalves(deviations);
    EveryoneFrom(deviations, 0.0);
    MajorityBoundsMedian(deviations, 0.0, 0.0);
  }

  lemma {:induction false} EveryoneFrom(s: seq<real>, lo: real)
    requires forall i :: 0 <= i < |s| ==> s[i] >= lo
    ensures CountFrom(s, lo) == |s|
  {
    if s != [] {
      EveryoneFrom(s[1..], lo);
    }
  }

  /** A surge is a reading above its median by at least 3 / 0.6745 spreads; where there is no spread nothing is one. */
  lemma SurgeMeans(value: real, b: Normal)
    requires b.mad >= 0.0
    ensures IsSurge(value, b) <==> b.mad > 0.0 && 0.6745 * (value - b.median) >= 3.0 * b.mad
  {
    if b.mad > 0.0 {
      ScaledRatio(0.6745 * (value - b.median), b.mad);
    }
  }

  /** A score is how many spreads a reading lies from the median, times 0.6745; there is none where there is no spread. */
  lemma ScoreMeans(value: real, b: Normal)
    ensures RobustZ(value, b).None? <==> b.mad == 0.0
    ensures RobustZ(value, b).Some? ==> RobustZ(value, b).value * b.mad == 0.6745 * (value - b.median)
  {}

  lemma ScaledRatio(x: real, m: real)
    requires m > 0.0
    ensures x / m >= 3.0 <==> x >= 3.0 * m
  {
    var q := x / m;
    assert q * m == x;
    if q >= 3.0 {
      assert (q - 3.0) * m >= 0.0;
    } else {
      assert (3.0 - q) * m > 0.0;
    }
  }

  // ---- Where the spread vanishes ----

  function CountOf(s: seq<real>, v: real): (n: nat)
    ensures n <= |s|
  {
    if s == [] then 0 else (if s[0] == v then 1 else 0) + CountOf(s[1..], v)
  }

  lemma {:induction false} CountOfIsWithin(s: seq<real>, v: real)
    ensures CountOf(s, v) <= CountFrom(s, v) && CountOf(s, v) <= CountUpTo(s, v)
  {
    if s != [] {
      CountOfIsWithin(s[1..], v);
    }
  }

  /** A value that fills more than half of the places is the median. */
  lemma MajorityIsMedian(values: seq<real>, v: real)
    requires 2 * CountOf(values, v) > |values|
    ensures Median(values) == Some(v)
  {
    CountOfIsWithin(values, v);
    MajorityBoundsMedian(values, v, v);
  }

  lemma {:induction false} ZeroDeviations(values: seq<real>, m: real)
    ensures CountUpTo(Deviations(values, m), 0.0) == CountOf(values, m)
  {
    if values != [] {
      DeviationsRest(values, m);
      ZeroDeviations(values[1..], m);
    }
  }

  /** Where nothing is below zero, the median is zero exactly when more than half of the values are. */
  lemma MedianIsZero(values: seq<real>)
    requires values != [] && forall i :: 0 <= i < |values| ==> values[i] >= 0.0
    ensures Median(values).value == 0.0 <==> 2 * CountUpTo(values, 0.0) > |values|
  {
    hide CountFrom, CountUpTo, Ascending;
    var sorted, k := Ascending(values), |values| / 2;
    EveryoneFrom(values, 0.0);
    MajorityBoundsMedian(values, 0.0, 0.0);
    AscendingIsOrdered(values);
    AscendingCounts(values, 0.0, 0.0);
    if Median(values).value == 0.0 {
      SortedIsNonNegative(values, k);
      if |values| % 2 == 0 {
        SortedIsNonNegative(values, k - 1);
      }
      ManyUpTo(sorted, k, 0.0);
    }
  }

  lemma SortedIsNonNegative(values: seq<real>, k: nat)
    requires k < |values| && forall i :: 0 <= i < |values| ==> values[i] >= 0.0
    ensures Ascending(values)[k] >= 0.0
  {
    AscendingIsOrdered(values);
    assert Ascending(values)[k] in multiset(values);
  }

  /** There is no spread exactly when one value, then the median, fills more than half of the places. */
  lemma NoSpreadIff(values: seq<real>)
    requires BaselineOf(values).Some?
    ensures BaselineOf(values).value.mad == 0.0 <==> 2 * CountOf(values, BaselineOf(values).value.median) > |values|
    ensures BaselineOf(values).value.mad == 0.0 <==> exists v :: 2 * CountOf(values, v) > |values|
  {
    hide Median, CountOf, CountUpTo, BaselineOf;
    BaselineIs(values);
    var m := BaselineOf(values).value.median;
    ZeroDeviations(values, m);
    MedianIsZero(Deviations(values, m));
    if v :| 2 * CountOf(values, v) > |values| {
      MajorityIsMedian(values, v);
    }
  }

  /** No reading whatever is a surge. */
  ghost predicate Blind(b: Normal) {
    forall value :: !IsSurge(value, b)
  }

  /** And a baseline is blind to surges exactly where it has no spread. */
  lemma BlindIffNoSpread(b: Normal)
    requires b.mad >= 0.0
    ensures Blind(b) <==> b.mad == 0.0
  {
    var value := b.median + 3.0 * b.mad / 0.6745;
    SurgeMeans(value, b);
  }

  /**
   * So what an incident can do to the next: whatever was corrupted, a reading far enough above the untouched
   * observations is a surge exactly unless one value has come to fill more than half of the places, and one that
   * does not exceed any of them never is.
   */
  lemma SurgesSurviveCorruption(a: seq<real>, b: seq<real>, lo: real, hi: real, value: real)
    requires |a| == |b| && 2 * (|a| - Untouched(a, b)) < |a|
    requires forall i :: 0 <= i < |a| && a[i] == b[i] ==> lo <= a[i] <= hi
    requires BaselineOf(b).Some?
    ensures value >= hi + 3.0 / 0.6745 * (hi - lo) ==>
      (IsSurge(value, BaselineOf(b).value) <==> forall v :: 2 * CountOf(b, v) <= |b|)
    ensures value <= lo ==> !IsSurge(value, BaselineOf(b).value)
  {
    hide BaselineOf, CountOf, Untouched;
    MadResistsCorruption(a, b, lo, hi);
    NoSpreadIff(b);
    FarAboveIsSurge(BaselineOf(b).value, lo, hi, value);
  }

  lemma FarAboveIsSurge(b: Normal, lo: real, hi: real, value: real)
    requires lo <= b.median <= hi && 0.0 <= b.mad <= hi - lo
    ensures value >= hi + 3.0 / 0.6745 * (hi - lo) ==> (IsSurge(value, b) <==> b.mad > 0.0)
    ensures value <= lo ==> !IsSurge(value, b)
  {
    SurgeMeans(value, b);
  }

  lemma {:induction false} AgreeFrom(a: seq<real>, b: seq<real>, k: nat)
    requires |a| == |b| && forall i :: k <= i < |a| ==> a[i] == b[i]
    ensures Untouched(a, b) >= |a| - k
  {
    if a != [] {
      AgreeFrom(a[1..], b[1..], if k == 0 then 0 else k - 1);
    }
  }

  lemma {:induction false} FillsThrough(s: seq<real>, k: nat, v: real)
    requires k <= |s| && forall i :: 0 <= i < k ==> s[i] == v
    ensures CountOf(s, v) >= k
  {
    if k > 0 {
      FillsThrough(s[1..], k - 1, v);
    }
  }

  lemma {:induction false} OnceEach(s: seq<real>, v: real)
    requires forall i, j :: 0 <= i < j < |s| ==> s[i] < s[j]
    ensures CountOf(s, v) <= 1
    ensures (forall i :: 0 <= i < |s| ==> s[i] != v) ==> CountOf(s, v) == 0
  {
    if s != [] {
      OnceEach(s[1..], v);
    }
  }

  /** Four of nine observations corrupted, each to the value of a fifth, leave no reading a surge. */
  lemma MinorityBlinds()
    ensures var a, b := [1.0, 2.0, 3.0, 4.0, 5.0, 6.0, 7.0, 8.0, 9.0], [5.0, 5.0, 5.0, 5.0, 5.0, 6.0, 7.0, 8.0, 9.0];
      && 2 * (|a| - Untouched(a, b)) < |a|
      && BaselineOf(a).Some? && !Blind(BaselineOf(a).value)
      && BaselineOf(b).Some? && Blind(BaselineOf(b).value)
  {
    hide CountOf, Untouched, Blind, BaselineOf;
    var a, b := [1.0, 2.0, 3.0, 4.0, 5.0, 6.0, 7.0, 8.0, 9.0], [5.0, 5.0, 5.0, 5.0, 5.0, 6.0, 7.0, 8.0, 9.0];
    HasBaseline(a);
    HasBaseline(b);
    AgreeFrom(a, b, 4);
    OnceEach(a, BaselineOf(a).value.median);
    FillsThrough(b, 5, 5.0);
    BlindOrNot(a);
    BlindOrNot(b);
  }

  lemma BlindOrNot(values: seq<real>)
    requires BaselineOf(values).Some?
    ensures Blind(BaselineOf(values).value) <==> 2 * CountOf(values, BaselineOf(values).value.median) > |values|
    ensures Blind(BaselineOf(values).value) <==> exists v :: 2 * CountOf(values, v) > |values|
  {
    hide CountOf, Blind, BaselineOf;
    NoSpreadIff(values);
    SpreadIsNonNegative(values);
    BlindIffNoSpread(BaselineOf(values).value);
  }

  // ---- How many corrupted observations it takes ----

  /** At most t observations differ. */
  predicate Corrupts(a: seq<real>, b: seq<real>, t: nat) {
    |a| == |b| && |a| - Untouched(a, b) <= t
  }

  lemma {:induction false} CountMoves(a: seq<real>, b: seq<real>, v: real)
    requires |a| == |b|
    ensures CountOf(b, v) <= CountOf(a, v) + |a| - Untouched(a, b)
  {
    if a != [] {
      CountMoves(a[1..], b[1..], v);
    }
  }

  /** The first t observations that are not v become v. */
  function Flooded(a: seq<real>, v: real, t: nat): (b: seq<real>)
    ensures |b| == |a|
  {
    if a == [] then []
    else if a[0] == v || t == 0 then [a[0]] + Flooded(a[1..], v, t)
    else [v] + Flooded(a[1..], v, t - 1)
  }

  lemma {:induction false} FloodedCounts(a: seq<real>, v: real, t: nat)
    ensures |a| - Untouched(a, Flooded(a, v, t)) <= t
    ensures CountOf(Flooded(a, v, t), v) == if CountOf(a, v) + t < |a| then CountOf(a, v) + t else |a|
  {
    if a != [] {
      var spent := if a[0] == v || t == 0 then t else t - 1;
      FloodedCounts(a[1..], v, spent);
      assert Flooded(a, v, t)[1..] == Flooded(a[1..], v, spent);
    }
  }

  /**
   * The exact number: t corrupted observations can make a bucket blind exactly when some value, with t places
   * more, would fill more than half of them. A constant series is blind without any.
   */
  lemma SpreadCollapsesIff(a: seq<real>, t: nat)
    requires BaselineOf(a).Some?
    ensures (exists b :: Corrupts(a, b, t) && BaselineOf(b).Some? && Blind(BaselineOf(b).value))
       <==> (exists v :: 2 * (CountOf(a, v) + t) > |a|)
  {
    hide CountOf, Untouched;
    if b :| Corrupts(a, b, t) && BaselineOf(b).Some? && Blind(BaselineOf(b).value) {
      CollapseNeeds(a, b, t);
    }
    if v :| 2 * (CountOf(a, v) + t) > |a| {
      CollapseTakes(a, v, t);
    }
  }

  lemma CollapseNeeds(a: seq<real>, b: seq<real>, t: nat)
    requires Corrupts(a, b, t) && BaselineOf(b).Some? && Blind(BaselineOf(b).value)
    ensures exists v :: 2 * (CountOf(a, v) + t) > |a|
  {
    hide CountOf, Untouched, Blind, BaselineOf;
    BlindOrNot(b);
    var v :| 2 * CountOf(b, v) > |b|;
    CountMoves(a, b, v);
  }

  lemma CollapseTakes(a: seq<real>, v: real, t: nat)
    requires BaselineOf(a).Some? && 2 * (CountOf(a, v) + t) > |a|
    ensures var b := Flooded(a, v, t); Corrupts(a, b, t) && BaselineOf(b).Some? && Blind(BaselineOf(b).value)
  {
    hide CountOf, Untouched, Blind;
    var b := Flooded(a, v, t);
    FloodedCounts(a, v, t);
    BlindOrNot(b);
  }

  // ---- Reflection ----

  /** The values negated and read backwards. */
  function Mirrored(s: seq<real>): (r: seq<real>)
    ensures |r| == |s| && forall i :: 0 <= i < |r| ==> r[i] == -s[|s| - 1 - i]
  {
    seq(|s|, i requires 0 <= i < |s| => -s[|s| - 1 - i])
  }

  function Negated(x: real): real { -x }

  lemma {:induction false} MirroredElements(s: seq<real>)
    ensures multiset(Mirrored(s)) == Images(s, Negated)
  {
    if s == [] {
      assert Mirrored(s) == [];
    } else {
      MirroredElements(s[1..]);
      assert Mirrored(s) == Mirrored(s[1..]) + [Negated(s[0])];
      ElementsOfConcat(Mirrored(s[1..]), [Negated(s[0])]);
    }
  }

  lemma AscendingMirrors(s: seq<real>)
    ensures Ascending(Mirrored(s)) == Mirrored(Ascending(s))
  {
    AscendingIsOrdered(s);
    AscendingIsOrdered(Mirrored(s));
    MirroredElements(s);
    MirroredElements(Ascending(s));
    SortImages(s, AtMost, Negated);
    MirrorOrders(Ascending(s));
    OrderedIsUnique(Ascending(Mirrored(s)), Mirrored(Ascending(s)), AtMost);
  }

  lemma MirrorOrders(s: seq<real>)
    requires OrderedBy(s, AtMost)
    ensures OrderedBy(Mirrored(s), AtMost)
  {
    forall i, j | 0 <= i < j < |s| ensures AtMost(Mirrored(s)[i], Mirrored(s)[j]) {
      assert AtMost(s[|s| - 1 - j], s[|s| - 1 - i]);
    }
  }

  /** The median favours neither direction: reflecting the observations reflects it, for even and odd numbers of them. */
  lemma MedianReflects(values: seq<real>)
    requires values != []
    ensures Median(Mirrored(values)) == Some(-Median(values).value)
  {
    AscendingMirrors(values);
  }

  // ---- Least absolute deviations ----

  function TotalDeviation(s: seq<real>, c: real): real {
    if s == [] then 0.0 else Abs(s[0] - c) + TotalDeviation(s[1..], c)
  }

  lemma {:induction false} InsertDeviation(x: real, s: seq<real>, c: real)
    ensures TotalDeviation(Insert(x, s, AtMost), c) == TotalDeviation(s, c) + Abs(x - c)
  {
    if s == [] || AtMost(x, s[0]) {
      assert ([x] + s)[1..] == s;
    } else {
      InsertDeviation(x, s[1..], c);
      assert Insert(x, s, AtMost)[1..] == Insert(x, s[1..], AtMost);
    }
  }

  lemma {:induction false} AscendingDeviation(s: seq<real>, c: real)
    ensures TotalDeviation(Ascending(s), c) == TotalDeviation(s, c)
  {
    if s != [] {
      AscendingDeviation(s[1..], c);
      InsertDeviation(s[0], Ascending(s[1..]), c);
    }
  }

  lemma {:induction false} DeviationOfLast(s: seq<real>, c: real)
    requires s != []
    ensures TotalDeviation(s, c) == TotalDeviation(s[..|s| - 1], c) + Abs(s[|s| - 1] - c)
  {
    if |s| == 1 {
      assert s[1..] == [] && s[..0] == [];
    } else {
      DeviationOfLast(s[1..], c);
      assert s[1..][..|s[1..]| - 1] == s[..|s| - 1][1..];
    }
  }

  lemma PairDeviation(s: seq<real>, c: real)
    requires |s| == 2
    ensures TotalDeviation(s, c) == Abs(s[0] - c) + Abs(s[1] - c)
  {
    assert s[1..][1..] == [] && s[1..][0] == s[1];
    assert TotalDeviation(s[1..], c) == Abs(s[1] - c) + TotalDeviation([], c);
  }

  /** Peeling the two ends off an ascending list keeps its middle, which lies between them. */
  lemma {:induction false} MiddleMinimises(s: seq<real>, c: real)
    requires s != [] && OrderedBy(s, AtMost)
    ensures TotalDeviation(s, Middle(s)) <= TotalDeviation(s, c)
    ensures AtMost(s[0], Middle(s)) && AtMost(Middle(s), s[|s| - 1])
  {
    hide Ascending;
    var last := |s| - 1;
    if |s| == 1 {
      assert s[1..] == [];
    } else if |s| == 2 {
      PairDeviation(s, c);
      PairDeviation(s, Middle(s));
      assert AtMost(s[0], s[1]);
    } else {
      MiddleOfInner(s);
      MiddleMinimises(s[1..last], c);
      DeviationOfEnds(s, Middle(s));
      DeviationOfEnds(s, c);
    }
  }

  /** Dropping the least and the greatest observation leaves the median where it is. */
  lemma MiddleOfInner(s: seq<real>)
    requires |s| > 2 && OrderedBy(s, AtMost)
    ensures var inner := s[1..|s| - 1];
      && Middle(inner) == Middle(s) && OrderedBy(inner, AtMost)
      && AtMost(s[0], inner[0]) && AtMost(inner[|inner| - 1], s[|s| - 1])
  {}

  lemma DeviationOfEnds(s: seq<real>, m: real)
    requires |s| > 1
    ensures TotalDeviation(s, m) == Abs(s[0] - m) + TotalDeviation(s[1..|s| - 1], m) + Abs(s[|s| - 1] - m)
  {
    assert s[1..][..|s[1..]| - 1] == s[1..|s| - 1];
    DeviationOfLast(s[1..], m);
  }

  /** No centre is nearer to the observations, in total absolute deviation, than their median. */
  lemma MedianMinimisesDeviation(values: seq<real>, c: real)
    requires values != []
    ensures TotalDeviation(values, Median(values).value) <= TotalDeviation(values, c)
  {
    AscendingIsOrdered(values);
    MiddleMinimises(Ascending(values), c);
    AscendingDeviation(values, c);
    AscendingDeviation(values, Median(values).value);
  }

  // ---- Units do not matter ----

  function Line(k: real, c: real, x: real): real { k * x + c }

  function Affine(s: seq<real>, k: real, c: real): (r: seq<real>)
    ensures |r| == |s| && forall i :: 0 <= i < |r| ==> r[i] == Line(k, c, s[i])
  {
    seq(|s|, i requires 0 <= i < |s| => Line(k, c, s[i]))
  }

  lemma LineKeepsOrder(a: real, b: real, k: real, c: real)
    requires k > 0.0
    ensures AtMost(Line(k, c, a), Line(k, c, b)) <==> AtMost(a, b)
  {
    assert k * (b - a) == k * b - k * a;
  }

  lemma {:induction false} InsertAffine(x: real, s: seq<real>, k: real, c: real)
    requires k > 0.0
    ensures Insert(Line(k, c, x), Affine(s, k, c), AtMost) == Affine(Insert(x, s, AtMost), k, c)
  {
    if s != [] {
      LineKeepsOrder(x, s[0], k, c);
      InsertAffine(x, s[1..], k, c);
      assert Affine(s, k, c)[1..] == Affine(s[1..], k, c);
      assert Affine(Insert(x, s, AtMost), k, c)[1..] == Affine(Insert(x, s, AtMost)[1..], k, c);
    }
  }

  lemma {:induction false} AscendingAffine(s: seq<real>, k: real, c: real)
    requires k > 0.0
    ensures Ascending(Affine(s, k, c)) == Affine(Ascending(s), k, c)
  {
    if s != [] {
      assert Affine(s, k, c)[1..] == Affine(s[1..], k, c);
      AscendingAffine(s[1..], k, c);
      InsertAffine(s[0], Ascending(s[1..]), k, c);
    }
  }

  lemma MeanOfLine(a: real, b: real, k: real, c: real)
    ensures (Line(k, c, a) + Line(k, c, b)) / 2.0 == Line(k, c, (a + b) / 2.0)
  {}

  lemma MedianAffine(s: seq<real>, k: real, c: real)
    requires k > 0.0 && s != []
    ensures Median(Affine(s, k, c)).value == Line(k, c, Median(s).value)
  {
    AscendingAffine(s, k, c);
    var sorted := Ascending(s);
    if |s| % 2 == 0 {
      MeanOfLine(sorted[|s| / 2 - 1], sorted[|s| / 2], k, c);
    }
  }

  lemma AbsScales(x: real, m: real, k: real, c: real)
    requires k > 0.0
    ensures Abs(Line(k, c, x) - Line(k, c, m)) == Line(k, 0.0, Abs(x - m))
  {
    assert Line(k, c, x) - Line(k, c, m) == k * (x - m);
    assert x - m >= 0.0 ==> k * (x - m) >= 0.0;
    assert x - m < 0.0 ==> k * (m - x) > 0.0 && k * (m - x) == -(k * (x - m));
  }

  lemma DeviationsAffine(s: seq<real>, m: real, k: real, c: real)
    requires k > 0.0
    ensures Deviations(Affine(s, k, c), Line(k, c, m)) == Affine(Deviations(s, m), k, 0.0)
  {
    forall i | 0 <= i < |s| ensures Deviations(Affine(s, k, c), Line(k, c, m))[i] == Affine(Deviations(s, m), k, 0.0)[i] {
      AbsScales(s[i], m, k, c);
    }
  }

  lemma BaselineAffine(s: seq<real>, k: real, c: real)
    requires k > 0.0
    ensures BaselineOf(s).None? <==> BaselineOf(Affine(s, k, c)).None?
    ensures BaselineOf(s).Some? ==>
      BaselineOf(Affine(s, k, c)).value
      == Normal(Line(k, c, BaselineOf(s).value.median), Line(k, 0.0, BaselineOf(s).value.mad), |s|)
  {
    if |s| >= MIN_SAMPLES {
      var m := Median(s).value;
      MedianAffine(s, k, c);
      DeviationsAffine(s, m, k, c);
      MedianAffine(Deviations(s, m), k, 0.0);
    }
  }

  lemma RatioScales(x: real, m: real, mad: real, k: real, c: real)
    requires k > 0.0 && mad != 0.0
    ensures Line(k, 0.0, mad) != 0.0
    ensures MAD_SCALE * (Line(k, c, x) - Line(k, c, m)) / Line(k, 0.0, mad) == MAD_SCALE * (x - m) / mad
  {
    var d := MAD_SCALE * (x - m);
    var q := d / mad;
    assert MAD_SCALE * (Line(k, c, x) - Line(k, c, m)) == k * d;
    assert d == q * mad;
    assert k * d == q * (k * mad);
    assert Line(k, 0.0, mad) == k * mad != 0.0;
  }

  /** A common change of units and origin leaves every score, and every surge, as it was. */
  lemma ScoreIsUnitFree(s: seq<real>, value: real, k: real, c: real)
    requires k > 0.0 && BaselineOf(s).Some?
    ensures BaselineOf(Affine(s, k, c)).Some?
    ensures RobustZ(Line(k, c, value), BaselineOf(Affine(s, k, c)).value) == RobustZ(value, BaselineOf(s).value)
    ensures IsSurge(Line(k, c, value), BaselineOf(Affine(s, k, c)).value) == IsSurge(value, BaselineOf(s).value)
  {
    BaselineAffine(s, k, c);
    var b := BaselineOf(s).value;
    if b.mad != 0.0 {
      RatioScales(value, b.median, b.mad, k, c);
    } else {
      assert Line(k, 0.0, b.mad) == 0.0;
    }
  }
}
