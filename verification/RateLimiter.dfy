/** The per-key sliding-window limiter, its map of pruned hit lists, and the log it stands for. */
module RateLimiter {
  import opened Windows

  datatype Options = Options(limit: int, windowMs: int, maxKeys: int)

  type Hits = map<string, seq<int>>

  function HitsOf(hits: Hits, key: string): seq<int> {
    if key in hits then hits[key] else []
  }

  function Unexpired(o: Options, hits: Hits, now: int): Hits {
    map k | k in hits && Recent(hits[k], now, o.windowMs) != [] :: hits[k]
  }

  /** What eviction leaves: nothing happens below `maxKeys`; from there on, keys whose every hit has expired go. */
  function Evicted(o: Options, hits: Hits, now: int): Hits {
    if |hits| < o.maxKeys then hits else Unexpired(o, hits, now)
  }

  function Allowed(o: Options, hits: Hits, key: string, now: int): bool {
    |Recent(HitsOf(hits, key), now, o.windowMs)| < o.limit
  }

  function AfterAttempt(o: Options, hits: Hits, key: string, now: int): Hits {
    var recent := Recent(HitsOf(Evicted(o, hits, now), key), now, o.windowMs);
    Evicted(o, hits, now)[key := if |recent| < o.limit then recent + [now] else recent]
  }

  class Limiter {
    const options: Options
    var hits: Hits

    constructor (options: Options)
      ensures this.options == options && hits == map[]
    {
      this.options := options;
      hits := map[];
    }

    method Attempt(key: string, now: int) returns (allowed: bool)
      modifies this
      ensures hits == AfterAttempt(options, old(hits), key, now)
      ensures allowed == Allowed(options, Evicted(options, old(hits), now), key, now)
    {
      if |hits| >= options.maxKeys {
        EvictExpired(now);
      }
      var recent := Recent(HitsOf(hits, key), now, options.windowMs);
      if |recent| >= options.limit {
        hits := hits[key := recent];
        return false;
      }
      recent := recent + [now];
      hits := hits[key := recent];
      return true;
    }

    /** The loop over the map: every key is visited once, and deleted when all its times have expired. */
    method EvictExpired(now: int)
      modifies this
      ensures hits == Unexpired(options, old(hits), now)
    {
      var unvisited := hits.Keys;
      while unvisited != {}
        invariant unvisited <= hits.Keys <= old(hits).Keys
        invariant forall k :: k in old(hits) ==> (k in hits <==>
          k in unvisited || Recent(old(hits)[k], now, options.windowMs) != [])
        invariant forall k :: k in hits ==> hits[k] == old(hits)[k]
        decreases unvisited
      {
        var k :| k in unvisited;
        unvisited := unvisited - {k};
        var times := hits[k];
        RecentEmpty(times, now, options.windowMs);
        if forall t :: t in times ==> now - t >= options.windowMs {
          hits := hits - {k};
        }
      }
    }

    method Reset(key: string)
      modifies this
      ensures hits == old(hits) - {key}
    {
      hits := hits - {key};
    }
  }

  lemma {:induction false} RecentEmpty(times: seq<int>, now: int, windowMs: int)
    ensures Recent(times, now, windowMs) == [] <==> forall t :: t in times ==> now - t >= windowMs
  {
    if times != [] {
      var last := |times| - 1;
      RecentEmpty(times[..last], now, windowMs);
      assert times == times[..last] + [times[last]];
      assert times[last] in times && forall t :: t in times <==> t in times[..last] || t == times[last];
      assert |Recent(times, now, windowMs)|
          == |Recent(times[..last], now, windowMs)| + (if now - times[last] < windowMs then 1 else 0);
    }
  }

  // ---- The reference: every accepted attempt is kept, per key, until the key is reset ----

  datatype Call = Attempt(key: string, now: int) | Reset(key: string)

  /** The limiter, the log beside it, and the latest time seen. */
  datatype State = State(hits: Hits, log: map<string, seq<int>>, clock: int)

  predicate Enabled(s: State, call: Call) {
    call.Attempt? ==> s.clock <= call.now
  }

  function Next(o: Options, s: State, call: Call): State {
    match call
    case Attempt(key, now) =>
      State(AfterAttempt(o, s.hits, key, now),
            if Allowed(o, s.log, key, now) then s.log[key := HitsOf(s.log, key) + [now]] else s.log,
            now)
    case Reset(key) => State(s.hits - {key}, s.log - {key}, s.clock)
  }

  ghost predicate IsRun(o: Options, states: seq<State>, calls: seq<Call>) {
    && |states| == |calls| + 1
    && states[0].hits == map[] && states[0].log == map[]
    && forall i {:trigger calls[i]} :: 0 <= i < |calls| ==>
         Enabled(states[i], calls[i]) && states[i + 1] == Next(o, states[i], calls[i])
  }

  ghost predicate KeyAgrees(o: Options, s: State, key: string) {
    Agree(HitsOf(s.hits, key), HitsOf(s.log, key), s.clock, o.windowMs)
  }

  /** No `limit` + 1 accepted attempts of a key lie within less than a window. */
  predicate Spread(o: Options, times: seq<int>) {
    forall i, j :: 0 <= i <= j < |times| && times[j] - times[i] < o.windowMs ==> j - i < o.limit
  }

  predicate Ordered(times: seq<int>, clock: int) {
    && (forall i, j :: 0 <= i <= j < |times| ==> times[i] <= times[j])
    && (forall i :: 0 <= i < |times| ==> times[i] <= clock)
  }

  ghost predicate KeyInv(o: Options, s: State, key: string) {
    KeyAgrees(o, s, key) && Ordered(HitsOf(s.log, key), s.clock) && Spread(o, HitsOf(s.log, key))
  }

  ghost predicate Inv(o: Options, s: State) {
    forall key: string :: KeyInv(o, s, key)
  }

  lemma EvictionIsInvisible(o: Options, s: State, key: string, now: int)
    requires KeyAgrees(o, s, key) && s.clock <= now
    ensures Agree(HitsOf(Evicted(o, s.hits, now), key), HitsOf(s.log, key), now, o.windowMs)
  {
    var before, after := HitsOf(s.hits, key), HitsOf(Evicted(o, s.hits, now), key);
    if after != before {
      AgreeAfterPruning(before, HitsOf(s.log, key), s.clock, now, o.windowMs);
    }
  }

  lemma AttemptAgrees(o: Options, s: State, key: string, now: int)
    requires KeyAgrees(o, s, key) && s.clock <= now
    ensures Allowed(o, Evicted(o, s.hits, now), key, now) == Allowed(o, s.log, key, now)
    ensures KeyAgrees(o, Next(o, s, Attempt(key, now)), key)
  {
    EvictionIsInvisible(o, s, key, now);
    var hits, log := HitsOf(Evicted(o, s.hits, now), key), HitsOf(s.log, key);
    AgreeAfterPruning(hits, log, now, now, o.windowMs);
    AgreeAfterAppend(Recent(hits, now, o.windowMs), log, now, now, o.windowMs);
  }

  /** In an ordered list, what is recent is a suffix that reaches back as far as the window does. */
  lemma {:induction false} RecentCountsBack(times: seq<int>, now: int, windowMs: int, i: nat)
    requires Ordered(times, now) && i < |times| && now - times[i] < windowMs
    ensures |Recent(times, now, windowMs)| >= |times| - i
    decreases |times|
  {
    var last := |times| - 1;
    assert times[i] <= times[last];
    if i < last {
      RecentCountsBack(times[..last], now, windowMs, i);
    }
  }

  lemma SpreadKept(o: Options, times: seq<int>, now: int)
    requires Spread(o, times) && Ordered(times, now) && |Recent(times, now, o.windowMs)| < o.limit
    ensures Spread(o, times + [now]) && Ordered(times + [now], now)
  {
    hide Recent;
    var more := times + [now];
    forall i, j | 0 <= i <= j < |more| && more[j] - more[i] < o.windowMs ensures j - i < o.limit {
      if j == |times| && i < j {
        RecentCountsBack(times, now, o.windowMs, i);
      }
    }
  }

  lemma ResetKeeps(o: Options, s: State, reset: string, key: string)
    requires KeyInv(o, s, key)
    ensures KeyInv(o, Next(o, s, Reset(reset)), key)
  {
    if key != reset {
      assert HitsOf(s.log - {reset}, key) == HitsOf(s.log, key) && HitsOf(s.hits - {reset}, key) == HitsOf(s.hits, key);
    }
  }

  lemma OwnAttemptKeeps(o: Options, s: State, key: string, now: int)
    requires KeyInv(o, s, key) && s.clock <= now
    ensures KeyInv(o, Next(o, s, Attempt(key, now)), key)
  {
    hide KeyAgrees;
    AttemptAgrees(o, s, key, now);
    if Allowed(o, s.log, key, now) {
      SpreadKept(o, HitsOf(s.log, key), now);
    }
  }

  lemma OtherAttemptKeeps(o: Options, s: State, other: string, key: string, now: int)
    requires KeyInv(o, s, key) && s.clock <= now && other != key
    ensures KeyInv(o, Next(o, s, Attempt(other, now)), key)
  {
    EvictionIsInvisible(o, s, key, now);
  }

  lemma InvKept(o: Options, s: State, call: Call)
    requires Inv(o, s) && Enabled(s, call)
    ensures Inv(o, Next(o, s, call))
  {
    forall key: string ensures KeyInv(o, Next(o, s, call), key) {
      assert KeyInv(o, s, key);
      match call
      case Reset(k) => ResetKeeps(o, s, k, key);
      case Attempt(k, now) =>
        if k == key {
          OwnAttemptKeeps(o, s, key, now);
        } else {
          OtherAttemptKeeps(o, s, k, key, now);
        }
    }
  }

  lemma {:induction false} InvHolds(o: Options, states: seq<State>, calls: seq<Call>, n: nat)
    requires IsRun(o, states, calls) && n < |states|
    ensures Inv(o, states[n])
  {
    if n > 0 {
      InvHolds(o, states, calls, n - 1);
      InvKept(o, states[n - 1], calls[n - 1]);
    }
  }

  /** Filtering and eviction never change an answer: every attempt is judged as the full log would judge it. */
  lemma AnswersAsTheFullLog(o: Options, states: seq<State>, calls: seq<Call>, n: nat, key: string, now: int)
    requires IsRun(o, states, calls) && n < |states| && states[n].clock <= now
    ensures Allowed(o, Evicted(o, states[n].hits, now), key, now) == Allowed(o, states[n].log, key, now)
  {
    InvHolds(o, states, calls, n);
    assert KeyInv(o, states[n], key);
    AttemptAgrees(o, states[n], key, now);
  }

  /** Between resets of a key, any `limit` + 1 of its accepted attempts span at least a whole window. */
  lemma AtMostLimitPerWindow(o: Options, states: seq<State>, calls: seq<Call>, n: nat, key: string, i: nat, j: nat)
    requires IsRun(o, states, calls) && n < |states|
    requires i <= j < |HitsOf(states[n].log, key)| && HitsOf(states[n].log, key)[j] - HitsOf(states[n].log, key)[i] < o.windowMs
    ensures j - i + 1 <= o.limit
  {
    InvHolds(o, states, calls, n);
    assert KeyInv(o, states[n], key);
  }

  // ---- The answers, told by the calls ----

  /** The j-th call is an attempt that was answered yes. */
  predicate Accepts(o: Options, states: seq<State>, calls: seq<Call>, j: int) {
    && 0 <= j < |calls| && j < |states| && calls[j].Attempt?
    && Allowed(o, Evicted(o, states[j].hits, calls[j].now), calls[j].key, calls[j].now)
  }

  predicate ResetSince(calls: seq<Call>, i: int, n: nat, key: string)
    requires n <= |calls|
  {
    exists j :: 0 <= j < n && i < j && calls[j] == Reset(key)
  }

  /** The attempts of a key among the first n calls that were accepted less than a window before `at`, and not reset since. */
  function Counted(o: Options, states: seq<State>, calls: seq<Call>, n: nat, key: string, at: int): set<int>
    requires n <= |calls|
  {
    set i | 0 <= i < n && Accepts(o, states, calls, i) && calls[i].key == key && at - calls[i].now < o.windowMs
      && !ResetSince(calls, i, n, key)
  }

  lemma ResetStep(calls: seq<Call>, i: int, n: nat, key: string)
    requires 0 < n <= |calls| && 0 <= i < n
    ensures ResetSince(calls, i, n, key) <==> (i < n - 1 && (ResetSince(calls, i, n - 1, key) || calls[n - 1] == Reset(key)))
  {
    if calls[n - 1] == Reset(key) && i < n - 1 {
      assert ResetSince(calls, i, n, key);
    }
  }

  lemma CountedStep(o: Options, states: seq<State>, calls: seq<Call>, n: nat, key: string, at: int)
    requires 0 < n <= |calls|
    ensures calls[n - 1] == Reset(key) ==> Counted(o, states, calls, n, key, at) == {}
    ensures calls[n - 1] != Reset(key) ==>
      |Counted(o, states, calls, n, key, at)| == |Counted(o, states, calls, n - 1, key, at)|
        + (if Accepts(o, states, calls, n - 1) && calls[n - 1].key == key && at - calls[n - 1].now < o.windowMs then 1 else 0)
  {
    hide Accepts, ResetSince;
    forall i | 0 <= i < n
      ensures ResetSince(calls, i, n, key) <==> i < n - 1 && (ResetSince(calls, i, n - 1, key) || calls[n - 1] == Reset(key))
    {
      ResetStep(calls, i, n, key);
    }
    var before, after := Counted(o, states, calls, n - 1, key, at), Counted(o, states, calls, n, key, at);
    if calls[n - 1] == Reset(key) {
      NoResetAccepted(o, states, calls, n - 1);
      assert after == {};
    } else {
      assert after == before + (if Accepts(o, states, calls, n - 1) && calls[n - 1].key == key && at - calls[n - 1].now < o.windowMs
        then {n - 1} else {});
    }
  }

  lemma NoResetAccepted(o: Options, states: seq<State>, calls: seq<Call>, j: int)
    ensures Accepts(o, states, calls, j) ==> calls[j].Attempt?
  {}

  lemma LogStep(o: Options, states: seq<State>, calls: seq<Call>, n: nat, key: string)
    requires IsRun(o, states, calls) && 0 < n <= |calls|
    ensures calls[n - 1] == Reset(key) ==> HitsOf(states[n].log, key) == []
    ensures calls[n - 1] != Reset(key) ==>
      HitsOf(states[n].log, key) == HitsOf(states[n - 1].log, key)
        + (if Accepts(o, states, calls, n - 1) && calls[n - 1].key == key then [calls[n - 1].now] else [])
  {
    hide Allowed, AfterAttempt, Evicted;
    var s, call := states[n - 1], calls[n - 1];
    assert Enabled(s, call) && states[n] == Next(o, s, call);
    if call.Attempt? {
      AnswersAsTheFullLog(o, states, calls, n - 1, call.key, call.now);
    }
  }

  lemma {:induction false} LogIsTold(o: Options, states: seq<State>, calls: seq<Call>, n: nat, key: string, at: int)
    requires IsRun(o, states, calls) && n <= |calls|
    ensures |Inside(HitsOf(states[n].log, key), at, o.windowMs)| == |Counted(o, states, calls, n, key, at)|
  {
    hide HitsOf, Inside, Counted, Accepts;
    if n == 0 {
      NothingLogged(o, states, calls, key, at);
    } else {
      LogIsTold(o, states, calls, n - 1, key, at);
      LogStep(o, states, calls, n, key);
      CountedStep(o, states, calls, n, key, at);
      NothingInside(at, o.windowMs);
      var e := calls[n - 1];
      if Accepts(o, states, calls, n - 1) && e.key == key {
        NoResetAccepted(o, states, calls, n - 1);
        InsideStep(HitsOf(states[n - 1].log, key), e.now, at, o.windowMs);
      } else {
        assert HitsOf(states[n - 1].log, key) + [] == HitsOf(states[n - 1].log, key);
      }
    }
  }

  lemma NothingLogged(o: Options, states: seq<State>, calls: seq<Call>, key: string, at: int)
    requires IsRun(o, states, calls)
    ensures Inside(HitsOf(states[0].log, key), at, o.windowMs) == {} && Counted(o, states, calls, 0, key, at) == {}
  {}

  /**
   * An attempt is accepted exactly when fewer than `limit` attempts of its key were accepted less than a window ago
   * and have not been reset since.
   */
  lemma AcceptsByItsCalls(o: Options, states: seq<State>, calls: seq<Call>, n: nat)
    requires IsRun(o, states, calls) && n < |calls| && calls[n].Attempt?
    ensures Accepts(o, states, calls, n) <==> |Counted(o, states, calls, n, calls[n].key, calls[n].now)| < o.limit
  {
    var key, now := calls[n].key, calls[n].now;
    assert Enabled(states[n], calls[n]);
    AnswersAsTheFullLog(o, states, calls, n, key, now);
    LogIsTold(o, states, calls, n, key, now);
    RecentCounts(HitsOf(states[n].log, key), now, o.windowMs);
  }

  /** Below `maxKeys` keys an attempt forgets none; from there on it forgets exactly those with no hit in the window. */
  lemma EvictionSparesTheRecent(o: Options, hits: Hits, key: string, now: int, other: string)
    requires other != key
    ensures var after := AfterAttempt(o, hits, key, now);
      && (other in after <==> other in hits && (|hits| < o.maxKeys || exists t :: t in hits[other] && now - t < o.windowMs))
      && (other in after ==> after[other] == hits[other])
  {
    if other in hits {
      RecentEmpty(hits[other], now, o.windowMs);
    }
  }
}
