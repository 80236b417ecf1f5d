/** What the throttle promises in every state of every run. */
module ThrottleTheorems {
  import opened Collections
  import opened Arithmetic
  import opened Wrappers
  import opened Windows
  import opened ThrottleModel

  // ---- Safety ----

  lemma {:induction false} SpacedApart(c: Config, s: State, j: nat, k: nat)
    requires InOrder(s) && Timed(c, s) && j < k < |s.history.starts|
    ensures s.turns[k].startedAt - s.turns[j].startedAt >= (k - j) * c.minIntervalMs
    ensures s.turns[j].settledAt <= s.turns[k].startedAt
    decreases k - j
  {
    assert TurnTimes(c, s, k) && TurnTimes(c, s, k - 1) && TurnTimes(c, s, j);
    if j < k - 1 {
      SpacedApart(c, s, j, k - 1);
    }
    assert (k - j) * c.minIntervalMs == (k - 1 - j) * c.minIntervalMs + c.minIntervalMs;
  }

  /** The earlier verification has settled before the later one started, at least `apart` intervals after it. */
  predicate Serial(c: Config, earlier: Turn, later: Turn, apart: nat) {
    && Done(earlier.stage) && earlier.settledAt <= later.startedAt
    && later.startedAt - earlier.startedAt >= apart * c.minIntervalMs
  }

  /**
   * Verifications of queued attempts start in admission order, one at a time, each after the one before has
   * settled (whether or not it threw), and at least the minimum interval apart.
   */
  lemma QueuedVerificationsAreSerial(c: Config, states: seq<State>, events: seq<Event>, n: nat)
    requires IsRun(c, states, events) && n < |states|
    ensures var s := states[n];
      && |s.history.starts| <= |s.turns|
      && (forall k :: 0 <= k < |s.history.starts| ==> s.history.starts[k] == k && Started(s.turns[k].stage))
      && (forall j, k :: 0 <= j < k < |s.history.starts| ==> Serial(c, s.turns[j], s.turns[k], k - j))
      && (forall j, k :: 0 <= j < |s.turns| && 0 <= k < |s.turns|
            && s.turns[j].stage == Verifying && s.turns[k].stage == Verifying
            ==> j == k)
  {
    InvHolds(c, states, events, n);
    var s := states[n];
    forall k | 0 <= k < |s.history.starts| ensures s.history.starts[k] == k && Started(s.turns[k].stage) {
      HasStarted(s, k);
    }
    forall j, k | 0 <= j < k < |s.history.starts| ensures Serial(c, s.turns[j], s.turns[k], k - j) {
      DoneBefore(s, j, k);
      SpacedApart(c, s, j, k);
    }
  }

  lemma HasStarted(s: State, k: nat)
    requires InOrder(s) && k < |s.history.starts|
    ensures Started(s.turns[k].stage)
  {
    assert Started(s.turns[k].stage) <==> k < |s.history.starts|;
  }

  lemma DoneBefore(s: State, j: nat, k: nat)
    requires InOrder(s) && j < k < |s.history.starts|
    ensures Done(s.turns[j].stage)
  {
    HasStarted(s, k);
    assert s.turns[k].stage != Queued;
  }

  /** The start times of queued verifications that fall within a span. */
  function StartsWithin(s: State, from: int, span: nat): set<nat>
    requires InOrder(s)
  {
    set k | 0 <= k < |s.history.starts| && from <= s.turns[k].startedAt <= from + span
  }

  /** Any span holds at most span / minInterval + 1 queued verifications. */
  lemma RateIsBounded(c: Config, states: seq<State>, events: seq<Event>, n: nat, from: int, span: nat)
    requires IsRun(c, states, events) && n < |states| && c.minIntervalMs > 0
    ensures InOrder(states[n]) && |StartsWithin(states[n], from, span)| <= span / c.minIntervalMs + 1
  {
    InvHolds(c, states, events, n);
    var inside := StartsWithin(states[n], from, span);
    if inside != {} {
      var first := Least(inside);
      var allowed := Range(first, span / c.minIntervalMs);
      forall k | k in inside ensures k in allowed {
        StartsFit(c, states[n], first, k, span);
      }
      SubsetSize(inside, allowed);
    }
  }

  lemma StartsFit(c: Config, s: State, first: nat, k: nat, span: nat)
    requires InOrder(s) && Timed(c, s) && first <= k < |s.history.starts| && c.minIntervalMs > 0
    requires s.turns[k].startedAt - s.turns[first].startedAt <= span
    ensures k <= first + span / c.minIntervalMs
  {
    if first < k {
      SpacedApart(c, s, first, k);
      IntervalsFit(k - first, c.minIntervalMs, span);
    }
  }

  lemma IntervalsFit(count: nat, interval: nat, span: nat)
    requires interval > 0 && count * interval <= span
    ensures count <= span / interval
  {
    var q, r := span / interval, span % interval;
    assert span == q * interval + r;
    MulDistributes(q, 1, interval);
    if count > q {
      MulMonotone(q + 1, count, interval);
    }
  }

  lemma Least(ks: set<nat>) returns (least: nat)
    requires ks != {}
    ensures least in ks && forall k :: k in ks ==> least <= k
  {
    least :| least in ks;
    while exists k :: k in ks && k < least
      invariant least in ks
      decreases least
    {
      var k :| k in ks && k < least;
      least := k;
    }
  }

  function Range(first: nat, bound: nat): (r: set<nat>)
    ensures |r| == bound + 1 && forall k :: k in r <==> first <= k <= first + bound
  {
    if bound == 0 then {first} else Range(first, bound - 1) + {first + bound}
  }

  /** `waiting` is the number of attempts admitted and not yet released, and the queue is bounded. */
  lemma WaitingIsExact(c: Config, states: seq<State>, events: seq<Event>, n: nat)
    requires IsRun(c, states, events) && n < |states|
    ensures states[n].waiting == |set k | 0 <= k < |states[n].turns| && states[n].turns[k].stage != Released|
    ensures 0 <= states[n].waiting <= c.maxWaiting + 1
  {
    InvHolds(c, states, events, n);
    UnreleasedCounts(states[n].turns);
  }

  lemma {:induction false} UnreleasedCounts(turns: seq<Turn>)
    ensures Unreleased(turns) == |Pending(turns)|
  {
    if turns != [] {
      UnreleasedCounts(turns[..|turns| - 1]);
      PendingStep(turns);
    }
  }

  function Pending(turns: seq<Turn>): set<int> {
    set k | 0 <= k < |turns| && turns[k].stage != Released
  }

  lemma PendingStep(turns: seq<Turn>)
    requires turns != []
    ensures var last := |turns| - 1;
      |Pending(turns)| == |Pending(turns[..last])| + (if turns[last].stage == Released then 0 else 1)
  {
    var last := |turns| - 1;
    assert Pending(turns) == Pending(turns[..last]) + (if turns[last].stage == Released then {} else {last});
  }

  // ---- What a call of `run` is answered ----

  /** Which of the first n steps recorded a failure less than a window before `at`. */
  function FailedBefore(c: Config, events: seq<Event>, n: nat, at: int): set<int>
    requires n <= |events|
  {
    set i | 0 <= i < n && events[i].RecordFailure? && at - events[i].at < c.windowMs
  }

  lemma {:induction false} FailuresAreTold(c: Config, states: seq<State>, events: seq<Event>, n: nat, at: int)
    requires IsRun(c, states, events) && n <= |events|
    ensures |Inside(states[n].history.failures, at, c.windowMs)| == |FailedBefore(c, events, n, at)|
  {
    hide Inside;
    if n == 0 {
      NothingInside(at, c.windowMs);
      assert FailedBefore(c, events, 0, at) == {};
    } else {
      FailuresAreTold(c, states, events, n - 1, at);
      FailedStep(c, events, n, at);
      FailuresStep(c, states[n - 1], events[n - 1]);
      if events[n - 1].RecordFailure? {
        InsideStep(states[n - 1].history.failures, events[n - 1].at, at, c.windowMs);
      }
    }
  }

  lemma FailuresStep(c: Config, s: State, e: Event)
    requires Enabled(c, s, e)
    ensures Next(c, s, e).history.failures == s.history.failures + (if e.RecordFailure? then [e.at] else [])
  {
    hide Recent, OutcomeOf;
  }

  lemma FailedStep(c: Config, events: seq<Event>, n: nat, at: int)
    requires 0 < n <= |events|
    ensures var e := events[n - 1];
      |FailedBefore(c, events, n, at)|
        == |FailedBefore(c, events, n - 1, at)| + (if e.RecordFailure? && at - e.at < c.windowMs then 1 else 0)
  {
    var e := events[n - 1];
    assert FailedBefore(c, events, n, at)
        == FailedBefore(c, events, n - 1, at) + (if e.RecordFailure? && at - e.at < c.windowMs then {n - 1} else {});
  }

  /** The n-th step is a call made while more than the threshold of failures lie in the window. */
  predicate Attacked(c: Config, events: seq<Event>, n: nat) {
    n < |events| && events[n].Run? && |FailedBefore(c, events, n, events[n].at)| > c.failureThreshold
  }

  /** More than `maxWaiting` turns have been given and not been released. */
  predicate Full(c: Config, s: State) {
    |set k | 0 <= k < |s.turns| && s.turns[k].stage != Released| > c.maxWaiting
  }

  /**
   * What becomes of a call, told by the failures recorded before it and the turns not yet released: it verifies at
   * once unless too many failures are recent; otherwise it is given a turn unless the queue is full, and if it is,
   * nothing happens at all.
   */
  lemma RunAnswers(c: Config, states: seq<State>, events: seq<Event>, n: nat)
    requires IsRun(c, states, events) && n < |events| && events[n].Run?
    ensures var s, s' := states[n], states[n + 1];
      && (!Attacked(c, events, n) ==>
            && s'.history.fastStarts == s.history.fastStarts + [events[n].again]
            && s'.lastVerificationAt == Some(events[n].again) && s'.turns == s.turns)
      && (Attacked(c, events, n) && !Full(c, s) ==> s'.turns == s.turns + [Turn(Queued, events[n].at, 0, 0, 0, 0)])
      && (Attacked(c, events, n) && Full(c, s) ==> s'.turns == s.turns)
      && (Attacked(c, events, n) ==>
            s'.history.fastStarts == s.history.fastStarts && s'.lastVerificationAt == s.lastVerificationAt)
      && s'.history.starts == s.history.starts
  {
    hide Inside, FailedBefore;
    var s, at := states[n], events[n].at;
    WaitingIsExact(c, states, events, n);
    FailuresAreTold(c, states, events, n, at);
    CountsAgree(c, s, at) by { InvHolds(c, states, events, n); }
    RecentCounts(s.history.failures, at, c.windowMs);
  }

  lemma CountsAgree(c: Config, s: State, at: int)
    requires FailuresAgree(c, s) && s.history.clock <= at
    ensures Recent(s.failures, at, c.windowMs) == Recent(s.history.failures, at, c.windowMs)
  {}

  function Calls(events: seq<Event>, n: nat): nat
    requires n <= |events|
  {
    if n == 0 then 0 else Calls(events, n - 1) + (if events[n - 1].Run? then 1 else 0)
  }

  /** How many of the first n steps were calls of `run` that came under attack and found the queue full. */
  function Refusals(c: Config, states: seq<State>, events: seq<Event>, n: nat): nat
    requires n <= |events| && |states| == |events| + 1
  {
    if n == 0 then 0
    else Refusals(c, states, events, n - 1) + (if Attacked(c, events, n - 1) && Full(c, states[n - 1]) then 1 else 0)
  }

  /**
   * A refused attempt is never verified: each call of `run` is refused, verified at once, or given one turn in the
   * queue, and there are never more queued verifications than turns. So all verifications together are at most the
   * calls that were not refused.
   */
  lemma {:induction false} RefusedNeverVerifies(c: Config, states: seq<State>, events: seq<Event>, n: nat)
    requires IsRun(c, states, events) && n <= |events|
    ensures Calls(events, n) == Refusals(c, states, events, n) + |states[n].history.fastStarts| + |states[n].turns|
    ensures |states[n].history.starts| + |states[n].history.fastStarts| <= Calls(events, n) - Refusals(c, states, events, n)
  {
    hide Attacked, Full;
    if n > 0 {
      RefusedNeverVerifies(c, states, events, n - 1);
      CallIsAccounted(c, states, events, n - 1);
    }
    InvHolds(c, states, events, n);
  }

  /** One step adds a fast start or a turn exactly when it is a call that is not refused. */
  lemma CallIsAccounted(c: Config, states: seq<State>, events: seq<Event>, n: nat)
    requires IsRun(c, states, events) && n < |events|
    ensures |states[n + 1].history.fastStarts| + |states[n + 1].turns|
         == |states[n].history.fastStarts| + |states[n].turns|
            + (if events[n].Run? && !(Attacked(c, events, n) && Full(c, states[n])) then 1 else 0)
    ensures Attacked(c, events, n) ==> events[n].Run?
  {
    hide Full;
    if events[n].Run? {
      RunAnswers(c, states, events, n);
    } else {
      assert Enabled(c, states[n], events[n]);
    }
  }

  /** The pruned failures count, at any later time, as all that were ever recorded would. */
  lemma FailuresAreNotForgotten(c: Config, states: seq<State>, events: seq<Event>, n: nat, at: int)
    requires IsRun(c, states, events) && n < |states| && at >= states[n].history.clock
    ensures |Inside(states[n].failures, at, c.windowMs)| == |FailedBefore(c, events, n, at)|
  {
    hide Inside, FailedBefore;
    CountsAgree(c, states[n], at) by { InvHolds(c, states, events, n); }
    RecentCounts(states[n].failures, at, c.windowMs);
    RecentCounts(states[n].history.failures, at, c.windowMs);
    FailuresAreTold(c, states, events, n, at);
  }

  // ---- When a turn starts ----

  /** Some verification, queued or on the fast path, started at t. */
  predicate VerifiedAt(s: State, t: int) {
    t in s.history.fastStarts || exists k :: 0 <= k < |s.turns| && Started(s.turns[k].stage) && s.turns[k].startedAt == t
  }

  /** The clock the turns wait by is the time of the latest verification of either kind. */
  ghost predicate RemembersLatest(s: State) {
    && (forall t :: VerifiedAt(s, t) ==> s.lastVerificationAt.Some? && t <= s.lastVerificationAt.value <= s.history.clock)
    && (s.lastVerificationAt.Some? ==> VerifiedAt(s, s.lastVerificationAt.value))
  }

  lemma VerifiedNow(s: State, s': State, i: nat, at: int)
    requires i < |s.turns| && !Started(s.turns[i].stage) && RemembersLatest(s) && s.history.clock <= at
    requires |s'.turns| == |s.turns| && s'.history.fastStarts == s.history.fastStarts
    requires forall k :: 0 <= k < |s.turns| && k != i ==> s'.turns[k] == s.turns[k]
    requires Started(s'.turns[i].stage) && s'.turns[i].startedAt == at
    requires s'.lastVerificationAt == Some(at) && s'.history.clock == at
    ensures RemembersLatest(s')
  {
    forall t | VerifiedAt(s', t) ensures t == at || VerifiedAt(s, t) {
      if t !in s'.history.fastStarts {
        var k :| 0 <= k < |s'.turns| && Started(s'.turns[k].stage) && s'.turns[k].startedAt == t;
        assert k == i || s'.turns[k] == s.turns[k];
      }
    }
    assert VerifiedAt(s', at);
  }

  lemma VerifiedAtOnce(s: State, s': State, at: int)
    requires RemembersLatest(s) && s.history.clock <= at && s'.turns == s.turns
    requires s'.history.fastStarts == s.history.fastStarts + [at]
    requires s'.lastVerificationAt == Some(at) && s'.history.clock == at
    ensures RemembersLatest(s')
  {
    forall t | VerifiedAt(s', t) ensures t == at || VerifiedAt(s, t) {}
    assert at in s'.history.fastStarts;
  }

  /** No verification starts, and those started stay: turns may be added or move on, as long as none starts. */
  lemma VerifiedBefore(s: State, s': State)
    requires RemembersLatest(s) && s.history.clock <= s'.history.clock && |s.turns| <= |s'.turns|
    requires s'.history.fastStarts == s.history.fastStarts && s'.lastVerificationAt == s.lastVerificationAt
    requires forall k :: 0 <= k < |s.turns| ==>
      (Started(s'.turns[k].stage) <==> Started(s.turns[k].stage)) && s'.turns[k].startedAt == s.turns[k].startedAt
    requires forall k :: |s.turns| <= k < |s'.turns| ==> !Started(s'.turns[k].stage)
    ensures RemembersLatest(s')
  {
    forall t ensures VerifiedAt(s', t) <==> VerifiedAt(s, t) {
      if k :| 0 <= k < |s.turns| && Started(s.turns[k].stage) && s.turns[k].startedAt == t {
        assert Started(s'.turns[k].stage) && s'.turns[k].startedAt == t;
      }
    }
  }

  lemma LatestKept(c: Config, s: State, e: Event)
    requires RemembersLatest(s) && Enabled(c, s, e)
    ensures RemembersLatest(Next(c, s, e))
  {
    hide VerifiedAt, RemembersLatest, Recent;
    var s' := Next(c, s, e);
    match e
    case Run(_, again) =>
      if s'.history.fastStarts == s.history.fastStarts {
        VerifiedBefore(s, s');
      } else {
        VerifiedAtOnce(s, s', again);
      }
    case BeginTurn(i, _, again) =>
      if s'.turns[i].stage == Sleeping {
        VerifiedBefore(s, s');
      } else {
        VerifiedNow(s, s', i, again);
      }
    case Wake(i, at) => VerifiedNow(s, s', i, at);
    case _ => VerifiedBefore(s, s');
  }

  lemma {:induction false} LatestHolds(c: Config, states: seq<State>, events: seq<Event>, n: nat)
    requires IsRun(c, states, events) && n < |states|
    ensures RemembersLatest(states[n])
  {
    if n > 0 {
      LatestHolds(c, states, events, n - 1);
      LatestKept(c, states[n - 1], events[n - 1]);
    }
  }

  /**
   * A turn that begins verifies at once exactly when every verification so far, queued or not, started at least the
   * minimum interval ago; otherwise it sleeps until the latest of them did.
   */
  lemma TurnWaitsExactly(c: Config, states: seq<State>, events: seq<Event>, n: nat)
    requires IsRun(c, states, events) && n < |events| && events[n].BeginTurn?
    ensures events[n].i < |states[n + 1].turns|
    ensures var s, e, turn := states[n], events[n], states[n + 1].turns[events[n].i];
      && (turn.stage == Verifying <==> forall t :: VerifiedAt(s, t) ==> t + c.minIntervalMs <= e.at)
      && (turn.stage == Verifying ==> turn.startedAt == e.again)
      && (turn.stage != Verifying ==>
            && turn.stage == Sleeping
            && (forall t :: VerifiedAt(s, t) ==> t + c.minIntervalMs <= turn.wakeAt)
            && exists t :: VerifiedAt(s, t) && t + c.minIntervalMs == turn.wakeAt)
  {
    hide VerifiedAt, Recent;
    LatestHolds(c, states, events, n);
    assert Enabled(c, states[n], events[n]);
  }

  // ---- Progress ----

  function StepsLeft(stage: Stage): nat {
    match stage case Queued => 3 case Sleeping => 2 case Verifying => 1 case _ => 0
  }

  /** The steps attempt k and everyone admitted before it still have to make before k has settled. */
  function Rank(turns: seq<Turn>, k: nat): nat
    requires k < |turns|
  {
    StepsLeft(turns[k].stage) + (if k == 0 then 0 else Rank(turns, k - 1))
  }

  lemma {:induction false} RankUpdate(turns: seq<Turn>, i: nat, turn: Turn, k: nat)
    requires i < |turns| && k < |turns|
    ensures Rank(turns[i := turn], k)
         == Rank(turns, k) + (if i <= k then StepsLeft(turn.stage) - StepsLeft(turns[i].stage) else 0)
  {
    if k > 0 {
      RankUpdate(turns, i, turn, k - 1);
    }
  }

  lemma {:induction false} RankAppend(turns: seq<Turn>, turn: Turn, k: nat)
    requires k < |turns|
    ensures Rank(turns + [turn], k) == Rank(turns, k)
  {
    if k > 0 {
      RankAppend(turns, turn, k - 1);
    }
  }

  function TurnOf(e: Event): Option<nat> {
    match e
    case BeginTurn(i, _, _) => Some(i)
    case Wake(i, _) => Some(i)
    case Settle(i, _, _) => Some(i)
    case _ => None
  }

  /** Every step of attempts 0..k brings attempt k nearer to its verification, and no step takes it farther away. */
  lemma RankDecreases(c: Config, s: State, e: Event, k: nat)
    requires Enabled(c, s, e) && k < |s.turns|
    ensures k < |Next(c, s, e).turns| && Rank(Next(c, s, e).turns, k) <= Rank(s.turns, k)
    ensures TurnOf(e).Some? && TurnOf(e).value <= k ==> Rank(Next(c, s, e).turns, k) < Rank(s.turns, k)
  {
    hide Rank;
    match e
    case RecordFailure(_) =>
    case Run(at, _) => RankAppend(s.turns, Turn(Queued, at, 0, 0, 0, 0), k);
    case BeginTurn(i, _, _) => RankUpdate(s.turns, i, Next(c, s, e).turns[i], k);
    case Wake(i, _) => RankUpdate(s.turns, i, Next(c, s, e).turns[i], k);
    case Settle(i, _, _) => RankUpdate(s.turns, i, Next(c, s, e).turns[i], k);
    case Release(i) => RankUpdate(s.turns, i, Next(c, s, e).turns[i], k);
  }

  /** An attempt not settled yet is never stuck: once the clock is late enough, a step of 0..k is enabled. */
  lemma {:induction false} NeverStuck(c: Config, s: State, k: nat, at: int) returns (e: Event)
    requires k < |s.turns| && !Done(s.turns[k].stage)
    requires s.history.clock <= at && forall i :: 0 <= i < |s.turns| ==> s.turns[i].wakeAt <= at
    ensures Enabled(c, s, e) && TurnOf(e).Some? && TurnOf(e).value <= k
  {
    match s.turns[k].stage
    case Queued =>
      if k == 0 || Done(s.turns[k - 1].stage) {
        e := BeginTurn(k, at, at);
      } else {
        e := NeverStuck(c, s, k - 1, at);
      }
    case Sleeping => e := Wake(k, at);
    case Verifying => e := Settle(k, at, false);
  }

  /** A rank of zero is a settled attempt, whose verification has started. */
  lemma RankZeroIsVerified(s: State, k: nat)
    requires InOrder(s) && k < |s.turns| && Rank(s.turns, k) == 0
    ensures Done(s.turns[k].stage) && k in s.history.starts
  {
    assert s.history.starts[k] == k;
  }

  function IsStepOf(e: Event, k: nat): nat {
    if TurnOf(e).Some? && TurnOf(e).value <= k then 1 else 0
  }

  /** How many of the events are steps of attempts 0..k. */
  function StepsOf(events: seq<Event>, k: nat): nat {
    if events == [] then 0 else StepsOf(events[..|events| - 1], k) + IsStepOf(events[|events| - 1], k)
  }

  /** Whatever happens meanwhile, attempts 0..k take at most Rank steps between any two states of a run. */
  lemma {:induction false} StepsAreBounded(c: Config, states: seq<State>, events: seq<Event>, m: nat, n: nat, k: nat)
    requires IsRun(c, states, events) && m <= n < |states| && k < |states[m].turns|
    ensures k < |states[n].turns| && StepsOf(events[m..n], k) + Rank(states[n].turns, k) <= Rank(states[m].turns, k)
    decreases n
  {
    hide Rank, IsStepOf, Next;
    if m < n {
      StepsAreBounded(c, states, events, m, n - 1, k);
      RunStepCounts(c, states, events, n - 1, k);
      SliceAllButLast(events, m, n);
    }
  }

  lemma RunStepCounts(c: Config, states: seq<State>, events: seq<Event>, n: nat, k: nat)
    requires IsRun(c, states, events) && n < |events| && k < |states[n].turns|
    ensures k < |states[n + 1].turns|
    ensures IsStepOf(events[n], k) + Rank(states[n + 1].turns, k) <= Rank(states[n].turns, k)
  {
    RankDecreases(c, states[n], events[n], k);
  }

  /** Attempts 0..k make no more steps than their rank, so once they have made that many, attempt k is verified. */
  lemma EnoughStepsVerify(c: Config, states: seq<State>, events: seq<Event>, m: nat, n: nat, k: nat)
    requires IsRun(c, states, events) && m <= n < |states| && k < |states[m].turns|
    requires StepsOf(events[m..n], k) >= Rank(states[m].turns, k)
    ensures k < |states[n].turns| && Done(states[n].turns[k].stage) && k in states[n].history.starts
  {
    StepsAreBounded(c, states, events, m, n, k);
    InvHolds(c, states, events, n);
    RankZeroIsVerified(states[n], k);
  }

  /** No deadlock: an admitted attempt has settled exactly when neither it nor anyone before it can still make a step. */
  lemma SettledIffQuiet(c: Config, s: State, k: nat)
    requires InOrder(s) && k < |s.turns|
    ensures (forall e :: Enabled(c, s, e) && TurnOf(e).Some? ==> TurnOf(e).value > k) <==> Done(s.turns[k].stage)
  {
    if !Done(s.turns[k].stage) {
      var e := NeverStuck(c, s, k, LatestOf(s.turns, s.history.clock));
    }
  }

  function LatestOf(turns: seq<Turn>, clock: int): (at: int)
    ensures at >= clock && forall i :: 0 <= i < |turns| ==> turns[i].wakeAt <= at
  {
    if turns == [] then clock
    else
      var before := LatestOf(turns[..|turns| - 1], clock);
      if turns[|turns| - 1].wakeAt > before then turns[|turns| - 1].wakeAt else before
  }

  // ---- Every admitted attempt is verified ----

  /** A run that never ends: every step leads to a further one, of whichever attempt. */
  ghost predicate IsEndless(c: Config, states: nat -> State, events: nat -> Event) {
    && (exists clock :: states(0) == Initial(clock))
    && forall n: nat {:trigger events(n)} :: Enabled(c, states(n), events(n)) && states(n + 1) == Next(c, states(n), events(n))
  }

  /** All that holds attempt i up is its own verification, its own sleep, or a callback whose predecessor has settled. */
  predicate CanMove(s: State, i: nat) {
    i < |s.turns| && !Done(s.turns[i].stage) && (s.turns[i].stage == Queued && i > 0 ==> Done(s.turns[i - 1].stage))
  }

  /** What the source takes for granted: each verification settles, each sleep ends, each callback that is due runs. */
  ghost predicate Fair(states: nat -> State, events: nat -> Event) {
    forall m: nat, i: nat {:trigger CanMove(states(m), i)} :: CanMove(states(m), i) ==> MovesLater(events, m, i)
  }

  ghost predicate MovesLater(events: nat -> Event, m: nat, i: nat) {
    exists n: nat :: m <= n && TurnOf(events(n)) == Some(i)
  }

  /** The first of 0..k that has not settled is held up by nobody else. */
  lemma {:induction false} SomeoneCanMove(s: State, k: nat) returns (i: nat)
    requires InOrder(s) && k < |s.turns| && Rank(s.turns, k) > 0
    ensures i <= k && CanMove(s, i)
  {
    if k > 0 && Rank(s.turns, k - 1) > 0 {
      i := SomeoneCanMove(s, k - 1);
    } else {
      i := k;
      if k > 0 {
        RankZeroIsVerified(s, k - 1);
      }
    }
  }

  lemma {:induction false} EndlessInOrder(c: Config, states: nat -> State, events: nat -> Event, n: nat)
    requires IsEndless(c, states, events)
    ensures InOrder(states(n))
  {
    if n > 0 {
      EndlessInOrder(c, states, events, n - 1);
      OrderKept(c, states(n - 1), events(n - 1));
    }
  }

  lemma {:induction false} RankNeverRises(c: Config, states: nat -> State, events: nat -> Event, m: nat, n: nat, k: nat)
    requires IsEndless(c, states, events) && m <= n && k < |states(m).turns|
    ensures k < |states(n).turns| && Rank(states(n).turns, k) <= Rank(states(m).turns, k)
    decreases n
  {
    if m < n {
      RankNeverRises(c, states, events, m, n - 1, k);
      RankDecreases(c, states(n - 1), events(n - 1), k);
    }
  }

  /**
   * In every endless run in which verifications settle, sleeps end and due callbacks run, every admitted attempt is
   * verified, whatever calls and failures keep arriving.
   */
  lemma {:induction false} EveryAdmittedAttemptIsVerified(
      c: Config, states: nat -> State, events: nat -> Event, m: nat, k: nat) returns (n: nat)
    requires IsEndless(c, states, events) && Fair(states, events) && k < |states(m).turns|
    ensures m <= n && k < |states(n).turns| && Done(states(n).turns[k].stage) && k in states(n).history.starts
    decreases Rank(states(m).turns, k)
  {
    hide InOrder, Done;
    EndlessInOrder(c, states, events, m);
    if Rank(states(m).turns, k) == 0 {
      RankZeroIsVerified(states(m), k);
      return m;
    }
    var i := SomeoneCanMove(states(m), k);
    assert MovesLater(events, m, i);
    var l: nat :| m <= l && TurnOf(events(l)) == Some(i);
    RankNeverRises(c, states, events, m, l, k);
    RankDecreases(c, states(l), events(l), k);
    n := EveryAdmittedAttemptIsVerified(c, states, events, l + 1, k);
  }

  // ---- How long an attempt waits ----

  /** When the callback of a turn can run: admitted, and its predecessor settled. */
  function ReadyAt(s: State, k: nat): int
    requires k < |s.turns|
  {
    if k > 0 && s.turns[k - 1].settledAt > s.turns[k].admittedAt then s.turns[k - 1].settledAt else s.turns[k].admittedAt
  }

  /** Exact sleeps and no scheduling delay: a callback runs as soon as it can, and starts verifying as soon as it may. */
  predicate Punctual(s: State) {
    forall k :: 0 <= k < |s.turns| && Started(s.turns[k].stage) ==>
      s.turns[k].turnAt == ReadyAt(s, k) && s.turns[k].startedAt == s.turns[k].wakeAt
  }

  function VerifyDurations(s: State, from: nat, end: nat): int
    requires from <= end <= |s.turns|
    decreases end
  {
    if from == end then 0
    else VerifyDurations(s, from, end - 1) + s.turns[end - 1].settledAt - s.turns[end - 1].startedAt
  }

  lemma StartSoonAfterReady(c: Config, s: State, j: nat)
    requires Timed(c, s) && Punctual(s) && j < |s.turns| && Started(s.turns[j].stage)
    ensures s.turns[j].startedAt <= ReadyAt(s, j) + c.minIntervalMs
  {
    assert TurnTimes(c, s, j);
  }

  /** One interval a turn, and the durations of the verifications before the last. */
  function Budget(c: Config, s: State, ahead: nat, j: nat): int
    requires ahead <= j <= |s.turns|
    decreases j
  {
    c.minIntervalMs + if j == ahead then 0 else Budget(c, s, ahead, j - 1) + s.turns[j - 1].settledAt - s.turns[j - 1].startedAt
  }

  lemma {:induction false} BudgetIs(c: Config, s: State, ahead: nat, j: nat)
    requires ahead <= j <= |s.turns|
    ensures Budget(c, s, ahead, j) == (j - ahead + 1) * c.minIntervalMs + VerifyDurations(s, ahead, j)
    decreases j
  {
    if ahead < j {
      BudgetIs(c, s, ahead, j - 1);
      OneMore(j - ahead, c.minIntervalMs);
    }
  }

  lemma OneMore(count: nat, interval: nat)
    ensures (count + 1) * interval == count * interval + interval
  {}

  lemma {:induction false} StartedInBudget(c: Config, s: State, ahead: nat, j: nat, k: nat)
    requires InOrder(s) && Timed(c, s) && Punctual(s)
    requires ahead <= j <= k < |s.turns| && Started(s.turns[k].stage)
    requires ahead > 0 ==> s.turns[ahead - 1].settledAt <= s.turns[k].admittedAt
    ensures s.turns[j].startedAt <= s.turns[k].admittedAt + Budget(c, s, ahead, j)
    ensures Budget(c, s, ahead, j) >= c.minIntervalMs
    decreases j
  {
    AdmittedInOrder(c, s, j, k);
    StartSoonAfterReady(c, s, j);
    if ahead < j {
      StartedInBudget(c, s, ahead, j - 1, k);
      assert TurnTimes(c, s, j - 1);
    }
  }

  lemma {:induction false} AdmittedInOrder(c: Config, s: State, j: nat, k: nat)
    requires Timed(c, s) && j <= k < |s.turns|
    ensures s.turns[j].admittedAt <= s.turns[k].admittedAt
    decreases k
  {
    if j < k {
      AdmittedInOrder(c, s, j, k - 1);
      assert TurnTimes(c, s, k);
    }
  }

  /**
   * With exact sleeps, an attempt that found the attempts from `ahead` on still unsettled waits at most one
   * interval for each of them and one for itself, plus the time their verifications take.
   */
  lemma WaitIsBounded(c: Config, states: seq<State>, events: seq<Event>, n: nat, ahead: nat, k: nat)
    requires IsRun(c, states, events) && n < |states| && Punctual(states[n])
    requires ahead <= k < |states[n].turns| && Started(states[n].turns[k].stage)
    requires ahead > 0 ==> states[n].turns[ahead - 1].settledAt <= states[n].turns[k].admittedAt
    ensures states[n].turns[k].startedAt - states[n].turns[k].admittedAt
         <= (k - ahead + 1) * c.minIntervalMs + VerifyDurations(states[n], ahead, k)
  {
    InvHolds(c, states, events, n);
    StartedInBudget(c, states[n], ahead, k, k);
    BudgetIs(c, states[n], ahead, k);
  }
}
