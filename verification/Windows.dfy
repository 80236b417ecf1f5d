/** Sliding windows over recorded times: the filter both the throttle and the rate limiter prune with. */
module Windows {

  /** The times still inside the window that ends now. */
  function Recent(times: seq<int>, now: int, windowMs: int): (r: seq<int>)
    ensures |r| <= |times|
    ensures forall t :: t in r ==> t in times && now - t < windowMs
  {
    if times == [] then []
    else
      var last := times[|times| - 1];
      Recent(times[..|times| - 1], now, windowMs) + (if now - last < windowMs then [last] else [])
  }

  /** Where the times still inside the window stand. */
  function Inside(times: seq<int>, now: int, windowMs: int): set<int> {
    set i | 0 <= i < |times| && now - times[i] < windowMs
  }

  lemma NothingInside(at: int, windowMs: int)
    ensures Inside([], at, windowMs) == {}
  {}

  /** What is recent is as much as lies inside the window. */
  lemma {:induction false} RecentCounts(times: seq<int>, now: int, windowMs: int)
    ensures |Recent(times, now, windowMs)| == |Inside(times, now, windowMs)|
  {
    if times != [] {
      var last := |times| - 1;
      RecentCounts(times[..last], now, windowMs);
      InsideStep(times[..last], times[last], now, windowMs);
      assert times == times[..last] + [times[last]];
    }
  }

  lemma InsideStep(times: seq<int>, t: int, now: int, windowMs: int)
    ensures |Inside(times + [t], now, windowMs)| == |Inside(times, now, windowMs)| + (if now - t < windowMs then 1 else 0)
  {
    assert Inside(times + [t], now, windowMs) == Inside(times, now, windowMs) + (if now - t < windowMs then {|times|} else {});
  }

  lemma {:induction false} RecentAppend(a: seq<int>, b: seq<int>, now: int, windowMs: int)
    ensures Recent(a + b, now, windowMs) == Recent(a, now, windowMs) + Recent(b, now, windowMs)
  {
    if b == [] {
      assert a + b == a;
    } else {
      assert (a + b)[..|a + b| - 1] == a + b[..|b| - 1];
      RecentAppend(a, b[..|b| - 1], now, windowMs);
    }
  }

  /** Pruning earlier loses nothing that a later reading would still count. */
  lemma {:induction false} PruningIsInvisible(times: seq<int>, earlier: int, later: int, windowMs: int)
    requires earlier <= later
    ensures Recent(Recent(times, earlier, windowMs), later, windowMs) == Recent(times, later, windowMs)
  {
    if times != [] {
      var last := times[|times| - 1];
      PruningIsInvisible(times[..|times| - 1], earlier, later, windowMs);
      var kept := Recent(times[..|times| - 1], earlier, windowMs);
      if earlier - last < windowMs {
        RecentAppend(kept, [last], later, windowMs);
        assert Recent(times, earlier, windowMs) == kept + [last];
        assert [last][..0] == [] && Recent([], later, windowMs) == [];
      } else {
        assert Recent(times, earlier, windowMs) == kept;
      }
    }
  }

  /** A pruned list stands for a full one when every later reading agrees. */
  ghost predicate Agree(pruned: seq<int>, full: seq<int>, clock: int, windowMs: int) {
    forall t :: t >= clock ==> Recent(pruned, t, windowMs) == Recent(full, t, windowMs)
  }

  lemma AgreeAfterPruning(pruned: seq<int>, full: seq<int>, clock: int, now: int, windowMs: int)
    requires Agree(pruned, full, clock, windowMs) && clock <= now
    ensures Agree(Recent(pruned, now, windowMs), full, now, windowMs)
  {
    forall t | t >= now ensures Recent(Recent(pruned, now, windowMs), t, windowMs) == Recent(full, t, windowMs) {
      PruningIsInvisible(pruned, now, t, windowMs);
    }
  }

  lemma AgreeAfterAppend(pruned: seq<int>, full: seq<int>, clock: int, at: int, windowMs: int)
    requires Agree(pruned, full, clock, windowMs)
    ensures Agree(pruned + [at], full + [at], clock, windowMs)
  {
    forall t | t >= clock ensures Recent(pruned + [at], t, windowMs) == Recent(full + [at], t, windowMs) {
      RecentAppend(pruned, [at], t, windowMs);
      RecentAppend(full, [at], t, windowMs);
    }
  }
}
