/**
 * The throttle as the closure of the source keeps it: four variables, here fields, updated in place by the
 * segments its functions run between awaits. Each is proved to make exactly one step of the model.
 */
module LoginThrottle {
  import opened Wrappers
  import opened Windows
  import opened ThrottleModel

  class Throttle {
    const config: Config
    var failures: seq<int>
    /** The promise chain: its links, in the order they were attached. */
    var chain: seq<Turn>
    var waiting: int
    var lastVerificationAt: Option<int>
    ghost var history: History

    ghost function Model(): State
      reads this
    {
      State(failures, waiting, lastVerificationAt, chain, history)
    }

    constructor (config: Config, ghost clock: int)
      ensures this.config == config && Model() == Initial(clock)
    {
      this.config := config;
      failures, chain, waiting, lastVerificationAt := [], [], 0, None;
      history := History(clock, [], [], []);
    }

    method UnderAttackNow(now: int) returns (attacked: bool)
      modifies this`failures
      ensures failures == Recent(old(failures), now, config.windowMs)
      ensures attacked <==> |Inside(old(failures), now, config.windowMs)| > config.failureThreshold
    {
      RecentCounts(failures, now, config.windowMs);
      failures := Recent(failures, now, config.windowMs);
      attacked := |failures| > config.failureThreshold;
    }

    method RecordFailureNow(now: int)
      requires Enabled(config, Model(), RecordFailure(now))
      modifies this
      ensures failures == old(failures) + [now] && history.failures == old(history.failures) + [now]
      ensures Model() == Next(config, old(Model()), RecordFailure(now))
    {
      failures := failures + [now];
      history := history.(clock := now, failures := history.failures + [now]);
    }

    /**
     * `run`, up to its first await. It verifies at once unless too many failures are recent; otherwise it refuses,
     * or queues.
     */
    method RunHead(now: int, again: int) returns (outcome: Outcome)
      requires Enabled(config, Model(), Run(now, again))
      modifies this
      ensures outcome == FastPath <==> |Inside(old(failures), now, config.windowMs)| <= config.failureThreshold
      ensures outcome == Refused <==> outcome != FastPath && old(waiting) > config.maxWaiting
      ensures outcome == FastPath ==> chain == old(chain) && history.fastStarts == old(history.fastStarts) + [again]
      ensures outcome == Admitted ==> chain == old(chain) + [Turn(Queued, now, 0, 0, 0, 0)] && waiting == old(waiting) + 1
      ensures outcome != Admitted ==> chain == old(chain) && waiting == old(waiting)
      ensures outcome != FastPath ==>
        history.fastStarts == old(history.fastStarts) && lastVerificationAt == old(lastVerificationAt)
      ensures Model() == Next(config, old(Model()), Run(now, again))
    {
      RecentCounts(failures, now, config.windowMs);
      var attacked := UnderAttackNow(now);
      history := history.(clock := now);
      if !attacked {
        lastVerificationAt := Some(again);
        history := history.(clock := again, fastStarts := history.fastStarts + [again]);
        return FastPath;
      }
      if waiting > config.maxWaiting {
        return Refused;
      }
      waiting := waiting + 1;
      chain := chain + [Turn(Queued, now, 0, 0, 0, 0)];
      return Admitted;
    }

    /** The callback `chain.then` was given: it sleeps, or starts verifying at once. */
    method TurnBegins(i: nat, now: int, again: int)
      requires Enabled(config, Model(), BeginTurn(i, now, again))
      modifies this
      ensures |chain| == |old(chain)| && chain == old(chain)[i := chain[i]] && waiting == old(waiting)
      ensures chain[i].stage == Verifying <==>
        old(lastVerificationAt).None? || now - old(lastVerificationAt).value >= config.minIntervalMs
      ensures chain[i].stage != Verifying ==>
        chain[i].stage == Sleeping && chain[i].wakeAt == old(lastVerificationAt).value + config.minIntervalMs
      ensures Model() == Next(config, old(Model()), BeginTurn(i, now, again))
    {
      var wait := if lastVerificationAt.Some? then lastVerificationAt.value + config.minIntervalMs - now else 0;
      if wait > 0 {
        chain := chain[i := chain[i].(stage := Sleeping, turnAt := now, wakeAt := now + wait)];
        history := history.(clock := now);
      } else {
        lastVerificationAt := Some(again);
        chain := chain[i := chain[i].(stage := Verifying, turnAt := now, wakeAt := now, startedAt := again)];
        history := history.(clock := again, starts := history.starts + [i]);
      }
    }

    method TurnWakes(i: nat, now: int)
      requires Enabled(config, Model(), Wake(i, now))
      modifies this
      ensures chain == old(chain)[i := old(chain)[i].(stage := Verifying, startedAt := now)] && lastVerificationAt == Some(now)
      ensures Model() == Next(config, old(Model()), Wake(i, now))
    {
      lastVerificationAt := Some(now);
      chain := chain[i := chain[i].(stage := Verifying, startedAt := now)];
      history := history.(clock := now, starts := history.starts + [i]);
    }

    /** The verification's promise settles; the chain goes on whether it threw or not. */
    method TurnSettles(i: nat, now: int, threw: bool)
      requires Enabled(config, Model(), Settle(i, now, threw))
      modifies this
      ensures chain == old(chain)[i := old(chain)[i].(stage := Settled, settledAt := now)] && waiting == old(waiting)
      ensures Model() == Next(config, old(Model()), Settle(i, now, threw))
    {
      chain := chain[i := chain[i].(stage := Settled, settledAt := now)];
      history := history.(clock := now);
    }

    /** The `finally` of `run`. */
    method AttemptReleased(i: nat)
      requires Enabled(config, Model(), Release(i))
      modifies this
      ensures chain == old(chain)[i := old(chain)[i].(stage := Released)] && waiting == old(waiting) - 1
      ensures Model() == Next(config, old(Model()), Release(i))
    {
      waiting := waiting - 1;
      chain := chain[i := chain[i].(stage := Released)];
    }
  }
}
