/**
 * The sign-in throttle as a transition system. A step is what runs between two awaits of the source: the
 * synchronous head of `run`, the callback of a promise in the chain, the end of a sleep, the settling of a
 * verification, and the `finally` that releases an attempt.
 */
module ThrottleModel {
  import opened Wrappers
  import opened Windows

  datatype Config = Config(failureThreshold: int, windowMs: int, minIntervalMs: nat, maxWaiting: nat)

  /** How far an admitted attempt has come along its promise. */
  datatype Stage = Queued | Sleeping | Verifying | Settled | Released

  /** One link of the chain and the times at which it moved on; a time not reached yet is 0. */
  datatype Turn = Turn(stage: Stage, admittedAt: int, turnAt: int, wakeAt: int, startedAt: int, settledAt: int)

  /** What is never pruned: the clock, the verifications started, every failure. */
  datatype History = History(clock: int, starts: seq<nat>, fastStarts: seq<int>, failures: seq<int>)

  datatype State = State(
    failures: seq<int>, waiting: int, lastVerificationAt: Option<int>, turns: seq<Turn>, history: History)

  datatype Event =
    | RecordFailure(at: int)
    | Run(at: int, again: int)
    | BeginTurn(i: nat, at: int, again: int)
    | Wake(i: nat, at: int)
    | Settle(i: nat, at: int, threw: bool)
    | Release(i: nat)

  datatype Outcome = FastPath | Refused | Admitted

  function Initial(clock: int): State {
    State([], 0, None, [], History(clock, [], [], []))
  }

  function Done(stage: Stage): bool { stage == Settled || stage == Released }

  function Started(stage: Stage): bool { stage == Verifying || Done(stage) }

  function UnderAttack(c: Config, failures: seq<int>, at: int): bool {
    |Recent(failures, at, c.windowMs)| > c.failureThreshold
  }

  function OutcomeOf(c: Config, s: State, at: int): Outcome {
    if !UnderAttack(c, s.failures, at) then FastPath
    else if s.waiting > c.maxWaiting then Refused
    else Admitted
  }

  /**
   * When a step can happen: the clock never goes back, a promise fires once its predecessor has settled, and a sleep
   * lasts at least as long as asked.
   */
  predicate Enabled(c: Config, s: State, e: Event) {
    match e
    case RecordFailure(at) => s.history.clock <= at
    case Run(at, again) => s.history.clock <= at <= again
    case BeginTurn(i, at, again) =>
      && i < |s.turns| && s.turns[i].stage == Queued
      && (i > 0 ==> Done(s.turns[i - 1].stage))
      && s.history.clock <= at <= again
    case Wake(i, at) =>
      i < |s.turns| && s.turns[i].stage == Sleeping && s.history.clock <= at && s.turns[i].wakeAt <= at
    case Settle(i, at, _) => i < |s.turns| && s.turns[i].stage == Verifying && s.history.clock <= at
    case Release(i) => i < |s.turns| && s.turns[i].stage == Settled
  }

  /** When the next verification may start; before the first one there is nothing to wait for. */
  function EarliestStart(c: Config, s: State, at: int): int {
    if s.lastVerificationAt.Some? && s.lastVerificationAt.value + c.minIntervalMs > at
    then s.lastVerificationAt.value + c.minIntervalMs else at
  }

  function StartVerifying(s: State, i: nat, turn: Turn, at: int): State
    requires i < |s.turns|
  {
    s.(lastVerificationAt := Some(at),
       turns := s.turns[i := turn.(stage := Verifying, startedAt := at)],
       history := s.history.(clock := at, starts := s.history.starts + [i]))
  }

  function Next(c: Config, s: State, e: Event): State
    requires Enabled(c, s, e)
  {
    match e
    case RecordFailure(at) =>
      s.(failures := s.failures + [at], history := s.history.(clock := at, failures := s.history.failures + [at]))
    case Run(at, again) =>
      var pruned := s.(failures := Recent(s.failures, at, c.windowMs), history := s.history.(clock := at));
      (match OutcomeOf(c, s, at)
       case FastPath =>
         pruned.(lastVerificationAt := Some(again),
                 history := s.history.(clock := again, fastStarts := s.history.fastStarts + [again]))
       case Refused => pruned
       case Admitted =>
         pruned.(waiting := s.waiting + 1, turns := s.turns + [Turn(Queued, at, 0, 0, 0, 0)]))
    case BeginTurn(i, at, again) =>
      var turn := s.turns[i].(turnAt := at, wakeAt := EarliestStart(c, s, at));
      if turn.wakeAt > at then
        s.(turns := s.turns[i := turn.(stage := Sleeping)], history := s.history.(clock := at))
      else StartVerifying(s, i, turn, again)
    case Wake(i, at) => StartVerifying(s, i, s.turns[i], at)
    case Settle(i, at, _) =>
      s.(turns := s.turns[i := s.turns[i].(stage := Settled, settledAt := at)], history := s.history.(clock := at))
    case Release(i) =>
      s.(waiting := s.waiting - 1, turns := s.turns[i := s.turns[i].(stage := Released)])
  }

  /** A run: any interleaving of enabled steps from the initial state. */
  ghost predicate IsRun(c: Config, states: seq<State>, events: seq<Event>) {
    && |states| == |events| + 1
    && (exists clock :: states[0] == Initial(clock))
    && forall k {:trigger events[k]} :: 0 <= k < |events| ==>
         Enabled(c, states[k], events[k]) && states[k + 1] == Next(c, states[k], events[k])
  }

  // ---- What every step keeps ----

  function Unreleased(turns: seq<Turn>): nat {
    if turns == [] then 0
    else Unreleased(turns[..|turns| - 1]) + (if turns[|turns| - 1].stage == Released then 0 else 1)
  }

  predicate CountsWaiting(c: Config, s: State) {
    && s.waiting == Unreleased(s.turns)
    && s.waiting <= c.maxWaiting + 1
  }

  /** Whoever has left the queue did so after everyone before it had settled. */
  predicate InOrder(s: State) {
    && |s.history.starts| <= |s.turns|
    && (forall k :: 0 <= k < |s.history.starts| ==> s.history.starts[k] == k)
    && (forall k :: 0 <= k < |s.turns| ==> (Started(s.turns[k].stage) <==> k < |s.history.starts|))
    && (forall j, k :: 0 <= j < k < |s.turns| && s.turns[k].stage != Queued ==> Done(s.turns[j].stage))
  }

  predicate TurnTimes(c: Config, s: State, k: nat)
    requires k < |s.turns|
  {
    var turn := s.turns[k];
    && turn.admittedAt <= s.history.clock
    && (turn.stage != Queued ==> turn.admittedAt <= turn.turnAt <= turn.wakeAt <= turn.turnAt + c.minIntervalMs)
    && (Started(turn.stage) ==>
          && turn.wakeAt <= turn.startedAt <= s.history.clock
          && s.lastVerificationAt.Some? && turn.startedAt <= s.lastVerificationAt.value)
    && (Done(turn.stage) ==> turn.startedAt <= turn.settledAt <= s.history.clock)
    && (k > 0 ==> s.turns[k - 1].admittedAt <= turn.admittedAt)
    && (k > 0 && turn.stage != Queued ==>
          && s.turns[k - 1].settledAt <= turn.turnAt
          && s.turns[k - 1].startedAt + c.minIntervalMs <= turn.wakeAt)
  }

  predicate Timed(c: Config, s: State) {
    && (s.lastVerificationAt.Some? ==> s.lastVerificationAt.value <= s.history.clock)
    && forall k :: 0 <= k < |s.turns| ==> TurnTimes(c, s, k)
  }

  ghost predicate FailuresAgree(c: Config, s: State) {
    Agree(s.failures, s.history.failures, s.history.clock, c.windowMs)
  }

  ghost predicate Inv(c: Config, s: State) {
    CountsWaiting(c, s) && InOrder(s) && Timed(c, s) && FailuresAgree(c, s)
  }

  lemma {:induction false} UnreleasedUpdate(turns: seq<Turn>, i: nat, turn: Turn)
    requires i < |turns| && turns[i].stage != Released
    ensures Unreleased(turns[i := turn]) == Unreleased(turns) - (if turn.stage == Released then 1 else 0)
  {
    var last := |turns| - 1;
    if i < last {
      assert turns[i := turn][..last] == turns[..last][i := turn];
      UnreleasedUpdate(turns[..last], i, turn);
    } else {
      assert turns[i := turn][..last] == turns[..last];
    }
  }

  lemma WaitingKept(c: Config, s: State, e: Event)
    requires CountsWaiting(c, s) && Enabled(c, s, e)
    ensures CountsWaiting(c, Next(c, s, e))
  {
    match e
    case RecordFailure(_) =>
    case Run(at, _) =>
      assert (s.turns + [Turn(Queued, at, 0, 0, 0, 0)])[..|s.turns|] == s.turns;
    case BeginTurn(i, _, _) => UnreleasedUpdate(s.turns, i, Next(c, s, e).turns[i]);
    case Wake(i, _) => UnreleasedUpdate(s.turns, i, Next(c, s, e).turns[i]);
    case Settle(i, _, _) => UnreleasedUpdate(s.turns, i, Next(c, s, e).turns[i]);
    case Release(i) => UnreleasedUpdate(s.turns, i, Next(c, s, e).turns[i]);
  }

  lemma QueueHeadIsNext(s: State, i: nat)
    requires InOrder(s) && i < |s.turns| && !Started(s.turns[i].stage) && (i > 0 ==> Done(s.turns[i - 1].stage))
    ensures i == |s.history.starts|
  {
    if i > 0 {
      assert i - 1 < |s.history.starts|;
    }
  }

  lemma BeginOrder(c: Config, s: State, e: Event)
    requires InOrder(s) && Enabled(c, s, e) && e.BeginTurn?
    ensures InOrder(Next(c, s, e))
  {
    hide UnderAttack, Recent, OutcomeOf;
    QueueHeadIsNext(s, e.i);
  }

  lemma WakeOrder(c: Config, s: State, e: Event)
    requires InOrder(s) && Enabled(c, s, e) && e.Wake?
    ensures InOrder(Next(c, s, e))
  {
    if e.i > 0 {
      assert Done(s.turns[e.i - 1].stage);
    }
    QueueHeadIsNext(s, e.i);
  }

  lemma OrderKept(c: Config, s: State, e: Event)
    requires InOrder(s) && Enabled(c, s, e)
    ensures InOrder(Next(c, s, e))
  {
    hide Recent;
    match e
    case RecordFailure(_) =>
    case Run(_, _) =>
    case BeginTurn(_, _, _) => BeginOrder(c, s, e);
    case Wake(_, _) => WakeOrder(c, s, e);
    case Settle(_, _, _) =>
    case Release(_) =>
  }

  /** A step that changes turn i only: the other turns keep their times, the next one being still queued. */
  lemma OthersKept(c: Config, s: State, s': State, i: nat)
    requires InOrder(s) && Timed(c, s) && i < |s.turns| && !Done(s.turns[i].stage)
    requires |s'.turns| == |s.turns| && s'.turns == s.turns[i := s'.turns[i]] && s'.turns[i].admittedAt == s.turns[i].admittedAt
    requires s.history.clock <= s'.history.clock
    requires s.lastVerificationAt.Some? ==>
      s'.lastVerificationAt.Some? && s.lastVerificationAt.value <= s'.lastVerificationAt.value
    ensures forall k :: 0 <= k < |s.turns| && k != i ==> TurnTimes(c, s', k)
  {
    forall k | 0 <= k < |s.turns| && k != i ensures TurnTimes(c, s', k) {
      assert TurnTimes(c, s, k);
      if k == i + 1 {
        assert s.turns[k].stage == Queued;
      }
    }
  }

  lemma BeginTimes(c: Config, s: State, e: Event)
    requires e.BeginTurn? && InOrder(s) && Timed(c, s) && Enabled(c, s, e)
    ensures Timed(c, Next(c, s, e))
  {
    var s' := Next(c, s, e);
    OthersKept(c, s, s', e.i);
    assert TurnTimes(c, s, e.i);
    if e.i > 0 {
      assert TurnTimes(c, s, e.i - 1);
    }
    assert TurnTimes(c, s', e.i);
  }

  lemma WakeTimes(c: Config, s: State, e: Event)
    requires e.Wake? && InOrder(s) && Timed(c, s) && Enabled(c, s, e)
    ensures Timed(c, Next(c, s, e))
  {
    var s' := Next(c, s, e);
    OthersKept(c, s, s', e.i);
    assert TurnTimes(c, s, e.i);
    assert TurnTimes(c, s', e.i);
  }

  lemma SettleTimes(c: Config, s: State, e: Event)
    requires e.Settle? && InOrder(s) && Timed(c, s) && Enabled(c, s, e)
    ensures Timed(c, Next(c, s, e))
  {
    var s' := Next(c, s, e);
    OthersKept(c, s, s', e.i);
    assert TurnTimes(c, s, e.i);
    assert TurnTimes(c, s', e.i);
  }

  /** A failure, an admission or a release moves no turn that is already there. */
  lemma UnmovedTimes(c: Config, s: State, e: Event)
    requires InOrder(s) && Timed(c, s) && Enabled(c, s, e) && (e.RecordFailure? || e.Run? || e.Release?)
    ensures Timed(c, Next(c, s, e))
  {
    hide InOrder, Recent;
    var s' := Next(c, s, e);
    forall k | 0 <= k < |s'.turns| ensures TurnTimes(c, s', k) {
      if k < |s.turns| {
        assert TurnTimes(c, s, k);
      }
      if k > 0 {
        assert TurnTimes(c, s, k - 1);
      }
    }
  }

  lemma TimesKept(c: Config, s: State, e: Event)
    requires InOrder(s) && Timed(c, s) && Enabled(c, s, e)
    ensures Timed(c, Next(c, s, e))
  {
    match e
    case BeginTurn(_, _, _) => BeginTimes(c, s, e);
    case Wake(_, _) => WakeTimes(c, s, e);
    case Settle(_, _, _) => SettleTimes(c, s, e);
    case _ => UnmovedTimes(c, s, e);
  }

  lemma FailuresKept(c: Config, s: State, e: Event)
    requires FailuresAgree(c, s) && Enabled(c, s, e)
    ensures FailuresAgree(c, Next(c, s, e))
  {
    match e
    case RecordFailure(at) => AgreeAfterAppend(s.failures, s.history.failures, s.history.clock, at, c.windowMs);
    case Run(at, _) => AgreeAfterPruning(s.failures, s.history.failures, s.history.clock, at, c.windowMs);
    case _ =>
  }

  lemma {:induction false} InvHolds(c: Config, states: seq<State>, events: seq<Event>, k: nat)
    requires IsRun(c, states, events) && k < |states|
    ensures Inv(c, states[k])
  {
    if k > 0 {
      InvHolds(c, states, events, k - 1);
      var s, e := states[k - 1], events[k - 1];
      WaitingKept(c, s, e);
      OrderKept(c, s, e);
      TimesKept(c, s, e);
      FailuresKept(c, s, e);
    }
  }
}
