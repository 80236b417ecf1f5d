/** The collector as the closure of the source keeps it; each segment between awaits is one step of the model. */
module Collector {
  import opened Runner
  import opened CollectorModel

  class CollectorLoop {
    var lastRunAt: map<string, int>
    var running: bool
    var stopped: bool
    /** The suspended calls of `tick` that got past the lock, and the rows of `collector_runs`. */
    var cycles: seq<Cycle>
    var runs: seq<Run>
    ghost var clock: int

    ghost function Model(): State
      reads this
    {
      State(lastRunAt, running, stopped, cycles, runs, clock)
    }

    constructor (ghost clock: int)
      ensures Model() == Initial(clock)
    {
      lastRunAt, running, stopped, cycles, runs := map[], false, false, [], [];
      this.clock := clock;
    }

    /** `tick`, up to its loop; `claimed` is what the lock answered. */
    method TickBegins(now: int, claimed: bool, enabled: seq<JobId>, environments: seq<Environment>)
      requires Enabled(Model(), Tick(now, claimed, enabled, environments))
      modifies this
      ensures Model() == Next(old(Model()), Tick(now, claimed, enabled, environments))
    {
      clock := now;
      if running || stopped {
        return;
      }
      if !claimed {
        return;
      }
      running := true;
      var jobs := DueJobs(enabled, environments, lastRunAt, now);
      cycles := cycles + [Cycle(now, jobs, 0, Ready, false)];
    }

    /** One turn of the loop, up to the await of the job; the `finally` when the loop is over or left. */
    method CycleAdvances(c: nat, refreshed: bool, now: int)
      requires Enabled(Model(), Advance(c, refreshed, now))
      modifies this
      ensures Model() == Next(old(Model()), Advance(c, refreshed, now))
    {
      clock := now;
      var cycle := cycles[c];
      if cycle.started >= |cycle.jobs| {
        cycles := cycles[c := cycle.(phase := Ended, lockLost := false)];
        running := false;
        return;
      }
      if !refreshed {
        cycles := cycles[c := cycle.(phase := Ended, lockLost := true)];
        running := false;
        return;
      }
      var job := cycle.jobs[cycle.started];
      lastRunAt := lastRunAt[JobKey(job) := now];
      cycles := cycles[c := cycle.(started := cycle.started + 1, phase := Awaiting(|runs|))];
      runs := runs + [Run(job, now, Running, c)];
    }

    /** The job's promise settled: the run is finished as ok, or as failed in the `catch`. */
    method JobSettles(c: nat, at: int, ok: bool)
      requires Enabled(Model(), RunSettles(c, at, ok))
      modifies this
      ensures Model() == Next(old(Model()), RunSettles(c, at, ok))
    {
      clock := at;
      var r := cycles[c].phase.run;
      if ok {
        runs := runs[r := runs[r].(status := Ok)];
      } else {
        runs := runs[r := runs[r].(status := Failed)];
      }
      cycles := cycles[c := cycles[c].(phase := Ready)];
    }

    method StopNow()
      modifies this
      ensures Model() == Next(old(Model()), Stop)
    {
      stopped := true;
    }
  }
}
