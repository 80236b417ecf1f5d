/** The collector's loop as a transition system, and what every run of it keeps. */
module CollectorModel {
  import opened Collections
  import opened Wrappers
  import opened Keys
  import opened Runner

  datatype Status = Running | Ok | Failed

  /** A row of `collector_runs`, and the cycle that wrote it. */
  datatype Run = Run(job: DueJob, startedAt: int, status: Status, cycle: nat)

  /** Where a cycle is suspended: between two jobs, in the await of a job's run, or over. */
  datatype Phase = Ready | Awaiting(run: nat) | Ended

  datatype Cycle = Cycle(nowMs: int, jobs: seq<DueJob>, started: nat, phase: Phase, lockLost: bool)

  datatype State = State(
    lastRunAt: map<string, int>, running: bool, stopped: bool, cycles: seq<Cycle>, runs: seq<Run>, clock: int)

  datatype Event =
    | Tick(now: int, claimed: bool, enabled: seq<JobId>, environments: seq<Environment>)
    | Advance(cycle: nat, refreshed: bool, now: int)
    | RunSettles(cycle: nat, at: int, ok: bool)
    | Stop

  function Initial(clock: int): State {
    State(map[], false, false, [], [], clock)
  }

  predicate Enabled(s: State, e: Event) {
    match e
    case Tick(now, _, _, _) => s.clock <= now
    case Advance(cycle, _, now) => cycle < |s.cycles| && s.cycles[cycle].phase == Ready && s.clock <= now
    case RunSettles(cycle, at, _) =>
      && cycle < |s.cycles| && s.cycles[cycle].phase.Awaiting? && s.cycles[cycle].phase.run < |s.runs|
      && s.clock <= at
    case Stop => true
  }

  /** What a claimed tick makes of the clock: the jobs due at that moment. */
  function NewCycle(s: State, e: Event): Cycle
    requires e.Tick?
  {
    Cycle(e.now, Due(e.enabled, e.environments, s.lastRunAt, e.now), 0, Ready, false)
  }

  function EndCycle(s: State, c: nat, lockLost: bool): State
    requires c < |s.cycles|
  {
    s.(running := false, cycles := s.cycles[c := s.cycles[c].(phase := Ended, lockLost := lockLost)])
  }

  function StartJob(s: State, c: nat, now: int): State
    requires c < |s.cycles| && s.cycles[c].started < |s.cycles[c].jobs|
  {
    var cycle := s.cycles[c];
    var job := cycle.jobs[cycle.started];
    s.(lastRunAt := s.lastRunAt[JobKey(job) := now],
       cycles := s.cycles[c := cycle.(started := cycle.started + 1, phase := Awaiting(|s.runs|))],
       runs := s.runs + [Run(job, now, Running, c)],
       clock := now)
  }

  function Next(s: State, e: Event): State
    requires Enabled(s, e)
  {
    match e
    case Tick(now, claimed, _, _) =>
      if s.running || s.stopped || !claimed then s.(clock := now)
      else s.(running := true, cycles := s.cycles + [NewCycle(s, e)], clock := now)
    case Advance(c, refreshed, now) =>
      if s.cycles[c].started >= |s.cycles[c].jobs| then EndCycle(s.(clock := now), c, false)
      else if !refreshed then EndCycle(s.(clock := now), c, true)
      else StartJob(s, c, now)
    case RunSettles(c, at, ok) =>
      var r := s.cycles[c].phase.run;
      s.(runs := s.runs[r := s.runs[r].(status := if ok then Ok else Failed)],
         cycles := s.cycles[c := s.cycles[c].(phase := Ready)],
         clock := at)
    case Stop => s.(stopped := true)
  }

  ghost predicate IsRun(states: seq<State>, events: seq<Event>) {
    && |states| == |events| + 1
    && (exists clock :: states[0] == Initial(clock))
    && forall k {:trigger events[k]} :: 0 <= k < |events| ==>
         Enabled(states[k], events[k]) && states[k + 1] == Next(states[k], events[k])
  }

  // ---- One cycle at a time, each a prefix of what was due ----

  function JobsRun(runs: seq<Run>, c: nat): seq<DueJob> {
    if runs == [] then []
    else JobsRun(runs[..|runs| - 1], c) + (if runs[|runs| - 1].cycle == c then [runs[|runs| - 1].job] else [])
  }

  predicate OneAtATime(s: State) {
    && (forall c :: 0 <= c < |s.cycles| && s.cycles[c].phase != Ended ==> s.running && c == |s.cycles| - 1)
    && (s.running ==> s.cycles != [] && s.cycles[|s.cycles| - 1].phase != Ended)
  }

  predicate PrefixRun(s: State, c: nat)
    requires c < |s.cycles|
  {
    var cycle := s.cycles[c];
    && cycle.started <= |cycle.jobs|
    && JobsRun(s.runs, c) == cycle.jobs[..cycle.started]
    && (cycle.phase == Ended ==> (cycle.lockLost <==> cycle.started < |cycle.jobs|))
    && (cycle.phase.Awaiting? ==> cycle.phase.run < |s.runs|)
  }

  /** A run is unfinished exactly while its cycle awaits it. */
  predicate Finishes(s: State) {
    && (forall r :: 0 <= r < |s.runs| ==> s.runs[r].cycle < |s.cycles|)
    && (forall r :: 0 <= r < |s.runs| ==> (s.runs[r].status == Running <==> s.cycles[s.runs[r].cycle].phase == Awaiting(r)))
    && (forall c :: 0 <= c < |s.cycles| && s.cycles[c].phase.Awaiting? ==>
          s.cycles[c].phase.run < |s.runs| && s.runs[s.cycles[c].phase.run].cycle == c)
  }

  predicate Orderly(s: State) {
    OneAtATime(s) && Finishes(s) && forall c :: 0 <= c < |s.cycles| ==> PrefixRun(s, c)
  }

  lemma {:induction false} NoJobsYet(runs: seq<Run>, c: nat)
    requires forall r :: 0 <= r < |runs| ==> runs[r].cycle < c
    ensures JobsRun(runs, c) == []
  {
    if runs != [] {
      NoJobsYet(runs[..|runs| - 1], c);
    }
  }

  lemma {:induction false} JobsRunUpdate(runs: seq<Run>, r: nat, status: Status, c: nat)
    requires r < |runs|
    ensures JobsRun(runs[r := runs[r].(status := status)], c) == JobsRun(runs, c)
  {
    var last := |runs| - 1;
    var updated := runs[r := runs[r].(status := status)];
    if r < last {
      assert updated[..last] == runs[..last][r := runs[..last][r].(status := status)];
      JobsRunUpdate(runs[..last], r, status, c);
    } else {
      assert updated[..last] == runs[..last];
    }
  }

  lemma TickKeepsOrder(s: State, e: Event)
    requires Orderly(s) && Enabled(s, e) && e.Tick?
    ensures Orderly(Next(s, e))
  {
    var s' := Next(s, e);
    forall c | 0 <= c < |s'.cycles| ensures PrefixRun(s', c) {
      if c < |s.cycles| {
        assert PrefixRun(s, c);
      } else {
        NoJobsYet(s.runs, c);
      }
    }
  }

  lemma StartKeepsOrder(s: State, c: nat, now: int)
    requires Orderly(s) && c < |s.cycles| && s.cycles[c].phase == Ready && s.cycles[c].started < |s.cycles[c].jobs|
    ensures Orderly(StartJob(s, c, now))
  {
    hide JobKey;
    var s' := StartJob(s, c, now);
    assert s'.runs[..|s.runs|] == s.runs;
    forall k | 0 <= k < |s'.cycles| ensures PrefixRun(s', k) {
      assert PrefixRun(s, k);
    }
  }

  lemma EndKeepsOrder(s: State, c: nat, lockLost: bool)
    requires Orderly(s) && c < |s.cycles| && s.cycles[c].phase == Ready
    requires lockLost <==> s.cycles[c].started < |s.cycles[c].jobs|
    ensures Orderly(EndCycle(s, c, lockLost))
  {
    var s' := EndCycle(s, c, lockLost);
    forall k | 0 <= k < |s'.cycles| ensures PrefixRun(s', k) {
      assert PrefixRun(s, k);
    }
  }

  lemma SettleKeepsOrder(s: State, e: Event)
    requires Orderly(s) && Enabled(s, e) && e.RunSettles?
    ensures Orderly(Next(s, e))
  {
    var s' := Next(s, e);
    forall k | 0 <= k < |s'.cycles| ensures PrefixRun(s', k) {
      assert PrefixRun(s, k);
      JobsRunUpdate(s.runs, s.cycles[e.cycle].phase.run, if e.ok then Ok else Failed, k);
    }
  }

  lemma SameOrder(s: State, s': State)
    requires Orderly(s) && s'.cycles == s.cycles && s'.runs == s.runs && s'.running == s.running
    ensures Orderly(s')
  {
    forall k | 0 <= k < |s'.cycles| ensures PrefixRun(s', k) {
      assert PrefixRun(s, k);
    }
  }

  lemma OrderKept(s: State, e: Event)
    requires Orderly(s) && Enabled(s, e)
    ensures Orderly(Next(s, e))
  {
    match e
    case Tick(_, _, _, _) => TickKeepsOrder(s, e);
    case Advance(c, refreshed, now) =>
      assert PrefixRun(s, c);
      var at := s.(clock := now);
      SameOrder(s, at);
      if s.cycles[c].started >= |s.cycles[c].jobs| {
        EndKeepsOrder(at, c, false);
      } else if !refreshed {
        EndKeepsOrder(at, c, true);
      } else {
        StartKeepsOrder(s, c, now);
      }
    case RunSettles(_, _, _) => SettleKeepsOrder(s, e);
    case Stop => SameOrder(s, Next(s, e));
  }

  lemma {:induction false} OrderHolds(states: seq<State>, events: seq<Event>, n: nat)
    requires IsRun(states, events) && n < |states|
    ensures Orderly(states[n])
  {
    if n > 0 {
      OrderHolds(states, events, n - 1);
      OrderKept(states[n - 1], events[n - 1]);
    }
  }

  /** However ticks overlap, at most one cycle is under way. */
  lemma OneCycleInFlight(states: seq<State>, events: seq<Event>, n: nat, c: nat, d: nat)
    requires IsRun(states, events) && n < |states| && c < |states[n].cycles| && d < |states[n].cycles|
    requires states[n].cycles[c].phase != Ended && states[n].cycles[d].phase != Ended
    ensures c == d && states[n].running
  {
    OrderHolds(states, events, n);
  }

  /**
   * Each cycle runs, in order, a prefix of the jobs that were due, and all of them unless a lock refresh
   * failed; once it is over every run it started has been finished, as ok or failed. A job that throws is
   * just one that settles as failed: the cycle goes on to the next.
   */
  lemma CyclesRunPrefixes(states: seq<State>, events: seq<Event>, n: nat, c: nat)
    requires IsRun(states, events) && n < |states| && c < |states[n].cycles|
    ensures var s := states[n]; var cycle := s.cycles[c];
      && cycle.started <= |cycle.jobs|
      && JobsRun(s.runs, c) == cycle.jobs[..cycle.started]
      && (cycle.phase == Ended && !cycle.lockLost ==> JobsRun(s.runs, c) == cycle.jobs)
      && (cycle.phase == Ended && cycle.lockLost ==> cycle.started < |cycle.jobs|)
      && (cycle.phase == Ended ==> forall r :: 0 <= r < |s.runs| && s.runs[r].cycle == c ==> s.runs[r].status != Running)
  {
    OrderHolds(states, events, n);
    assert PrefixRun(states[n], c);
  }

  /** The k-th step is the tick that began cycle c: its jobs are what was due to that tick. */
  predicate Began(states: seq<State>, events: seq<Event>, k: nat, c: nat, cycle: Cycle) {
    && k < |events| && k < |states| && events[k].Tick? && events[k].claimed
    && !states[k].running && !states[k].stopped && |states[k].cycles| == c
    && cycle.nowMs == events[k].now
    && cycle.jobs == Due(events[k].enabled, events[k].environments, states[k].lastRunAt, events[k].now)
  }

  /** Every cycle was begun by a tick that found none running, and its list is what was due at that moment. */
  lemma {:induction false} CycleWasDue(states: seq<State>, events: seq<Event>, n: nat, c: nat) returns (k: nat)
    requires IsRun(states, events) && n < |states| && c < |states[n].cycles|
    ensures k < n && Began(states, events, k, c, states[n].cycles[c])
  {
    assert n > 0;
    var s, e := states[n - 1], events[n - 1];
    assert states[n] == Next(s, e);
    if c < |s.cycles| {
      k := CycleWasDue(states, events, n - 1, c);
      ListStays(s, e, c);
    } else {
      k := n - 1;
      ListIsDue(s, e);
    }
  }

  lemma ListStays(s: State, e: Event, c: nat)
    requires Enabled(s, e) && c < |s.cycles|
    ensures c < |Next(s, e).cycles|
    ensures Next(s, e).cycles[c].nowMs == s.cycles[c].nowMs && Next(s, e).cycles[c].jobs == s.cycles[c].jobs
  {
    hide Due, JobKey;
  }

  lemma ListIsDue(s: State, e: Event)
    requires Enabled(s, e) && |Next(s, e).cycles| > |s.cycles|
    ensures e.Tick? && e.claimed && !s.running && !s.stopped && |Next(s, e).cycles| == |s.cycles| + 1
    ensures var cycle := Next(s, e).cycles[|s.cycles|];
      cycle.nowMs == e.now && cycle.jobs == Due(e.enabled, e.environments, s.lastRunAt, e.now)
  {
    hide Due, JobKey;
  }

  /** A run keeps its job, its start and its cycle, and once finished its status. */
  predicate Keeps(before: Run, after: Run) {
    && after.job == before.job && after.startedAt == before.startedAt && after.cycle == before.cycle
    && (before.status != Running ==> after.status == before.status)
  }

  lemma RunStepKeeps(s: State, e: Event, r: nat)
    requires Orderly(s) && Enabled(s, e) && r < |s.runs|
    ensures r < |Next(s, e).runs| && Keeps(s.runs[r], Next(s, e).runs[r])
  {
    if e.RunSettles? {
      assert s.runs[s.cycles[e.cycle].phase.run].cycle == e.cycle;
    }
  }

  /** Every run is finished at most once: what it was finished as it stays. */
  lemma {:induction false} RunsFinishOnce(states: seq<State>, events: seq<Event>, m: nat, n: nat, r: nat)
    requires IsRun(states, events) && m <= n < |states| && r < |states[m].runs|
    ensures r < |states[n].runs| && Keeps(states[m].runs[r], states[n].runs[r])
    decreases n
  {
    if m < n {
      RunsFinishOnce(states, events, m, n - 1, r);
      OrderHolds(states, events, n - 1);
      RunStepKeeps(states[n - 1], events[n - 1], r);
    }
  }

  // ---- What each step does, told by the steps before it ----

  lemma {:induction false} StoppedIsTold(states: seq<State>, events: seq<Event>, n: nat)
    requires IsRun(states, events) && n <= |events|
    ensures states[n].stopped <==> exists k :: 0 <= k < n && events[k] == Stop
  {
    if n > 0 {
      StoppedIsTold(states, events, n - 1);
      StoppedStep(states[n - 1], events[n - 1]);
    }
  }

  lemma StoppedStep(s: State, e: Event)
    requires Enabled(s, e)
    ensures Next(s, e).stopped <==> s.stopped || e == Stop
  {
    hide Due, JobKey;
  }

  /** A tick begins a cycle exactly when it holds the lock, no cycle is under way and the collector was never stopped. */
  lemma CycleBeginsIff(states: seq<State>, events: seq<Event>, n: nat)
    requires IsRun(states, events) && n < |events|
    ensures |states[n + 1].cycles| != |states[n].cycles| <==>
      && events[n].Tick? && events[n].claimed
      && (forall c :: 0 <= c < |states[n].cycles| ==> states[n].cycles[c].phase == Ended)
      && (forall k :: 0 <= k < n ==> events[k] != Stop)
    ensures |states[n + 1].cycles| != |states[n].cycles| ==>
      |states[n + 1].cycles| == |states[n].cycles| + 1 && states[n + 1].cycles[|states[n].cycles|].phase == Ready
  {
    hide Due, JobKey, PrefixRun, Finishes;
    OrderHolds(states, events, n);
    StoppedIsTold(states, events, n);
    assert Enabled(states[n], events[n]);
  }

  /** The next job of a cycle's list, by the runs the cycle has had. */
  function NextJob(s: State, c: nat): Option<DueJob>
    requires c < |s.cycles|
  {
    var had := |JobsRun(s.runs, c)|;
    if had < |s.cycles[c].jobs| then Some(s.cycles[c].jobs[had]) else None
  }

  /**
   * A turn of the loop: while the lock holds it starts the next job of the list, now; otherwise, and at the end of the
   * list, it ends the cycle and starts nothing.
   */
  lemma TurnStartsTheNext(states: seq<State>, events: seq<Event>, n: nat)
    requires IsRun(states, events) && n < |events| && events[n].Advance?
    ensures events[n].cycle < |states[n].cycles| && |states[n + 1].cycles| == |states[n].cycles|
    ensures var s, s', c := states[n], states[n + 1], events[n].cycle;
      && (NextJob(s, c).Some? && events[n].refreshed ==>
            && s'.runs == s.runs + [Run(NextJob(s, c).value, events[n].now, Running, c)]
            && s'.cycles[c].phase == Awaiting(|s.runs|))
      && (NextJob(s, c).None? || !events[n].refreshed ==> s'.runs == s.runs && s'.cycles[c].phase == Ended)
      && (s'.cycles[c].phase == Ended ==> (s'.cycles[c].lockLost <==> NextJob(s, c).Some?))
  {
    hide Due, JobKey, JobsRun, OneAtATime, Finishes;
    OrderHolds(states, events, n);
    assert Enabled(states[n], events[n]);
    assert PrefixRun(states[n], events[n].cycle);
  }

  /** A job that settles finishes the one run its cycle is waiting for, as ok or failed as it settled, and no other. */
  lemma RunSettlesAsTold(states: seq<State>, events: seq<Event>, n: nat) returns (r: nat)
    requires IsRun(states, events) && n < |events| && events[n].RunSettles?
    ensures r < |states[n].runs| && states[n].runs[r].cycle == events[n].cycle && states[n].runs[r].status == Running
    ensures states[n + 1].runs
         == states[n].runs[r := states[n].runs[r].(status := if events[n].ok then Ok else Failed)]
  {
    hide Due, JobKey, OneAtATime, PrefixRun;
    OrderHolds(states, events, n);
    assert Enabled(states[n], events[n]);
    r := states[n].cycles[events[n].cycle].phase.run;
    assert states[n].cycles[events[n].cycle].phase.Awaiting?;
  }

  // ---- What is due, told by the runs ----

  /** The last start of a key is remembered, and nothing else. */
  predicate Remembers(s: State) {
    && (forall key :: key in s.lastRunAt ==>
          exists r :: 0 <= r < |s.runs| && JobKey(s.runs[r].job) == key && s.runs[r].startedAt == s.lastRunAt[key])
    && (forall r :: 0 <= r < |s.runs| ==>
          && JobKey(s.runs[r].job) in s.lastRunAt
          && s.runs[r].startedAt <= s.lastRunAt[JobKey(s.runs[r].job)] <= s.clock)
  }

  lemma RemembersStart(s: State, s': State, run: Run)
    requires Remembers(s) && s.clock <= run.startedAt && s'.clock == run.startedAt
    requires s'.runs == s.runs + [run] && s'.lastRunAt == s.lastRunAt[JobKey(run.job) := run.startedAt]
    ensures Remembers(s')
  {
    hide JobKey;
    forall key | key in s'.lastRunAt
      ensures exists r :: 0 <= r < |s'.runs| && JobKey(s'.runs[r].job) == key && s'.runs[r].startedAt == s'.lastRunAt[key]
    {
      if key == JobKey(run.job) {
        assert s'.runs[|s.runs|] == run;
      } else {
        var r :| 0 <= r < |s.runs| && JobKey(s.runs[r].job) == key && s.runs[r].startedAt == s.lastRunAt[key];
        assert s'.runs[r] == s.runs[r];
      }
    }
  }

  lemma RemembersOtherwise(s: State, s': State)
    requires Remembers(s) && s.clock <= s'.clock && s'.lastRunAt == s.lastRunAt && |s'.runs| == |s.runs|
    requires forall r :: 0 <= r < |s.runs| ==> s'.runs[r].job == s.runs[r].job && s'.runs[r].startedAt == s.runs[r].startedAt
    ensures Remembers(s')
  {
    hide JobKey;
    forall key | key in s'.lastRunAt
      ensures exists r :: 0 <= r < |s'.runs| && JobKey(s'.runs[r].job) == key && s'.runs[r].startedAt == s'.lastRunAt[key]
    {
      var r :| 0 <= r < |s.runs| && JobKey(s.runs[r].job) == key && s.runs[r].startedAt == s.lastRunAt[key];
      assert s'.runs[r].job == s.runs[r].job;
    }
  }

  lemma RemembersKept(s: State, e: Event)
    requires Remembers(s) && Enabled(s, e)
    ensures Remembers(Next(s, e))
  {
    hide Remembers, JobKey, Due;
    if e.Advance? && s.cycles[e.cycle].started < |s.cycles[e.cycle].jobs| && e.refreshed {
      RemembersStart(s, Next(s, e), Run(s.cycles[e.cycle].jobs[s.cycles[e.cycle].started], e.now, Running, e.cycle));
    } else {
      RemembersOtherwise(s, Next(s, e));
    }
  }

  lemma {:induction false} RemembersHolds(states: seq<State>, events: seq<Event>, n: nat)
    requires IsRun(states, events) && n < |states|
    ensures Remembers(states[n])
  {
    if n > 0 {
      RemembersHolds(states, events, n - 1);
      RemembersKept(states[n - 1], events[n - 1]);
    }
  }

  /**
   * The cycle a tick begins lists an applicable job exactly when no run with its key, however it went, started less
   * than the job's interval ago.
   */
  lemma DueByItsRuns(states: seq<State>, events: seq<Event>, n: nat, job: DueJob)
    requires IsRun(states, events) && n < |events| && |states[n + 1].cycles| > |states[n].cycles|
    ensures events[n].Tick?
    ensures var s, e := states[n], events[n];
      job in states[n + 1].cycles[|s.cycles|].jobs <==>
        && Applicable(e.enabled, e.environments, job)
        && forall r :: 0 <= r < |s.runs| && JobKey(s.runs[r].job) == JobKey(job) ==>
             e.now - s.runs[r].startedAt >= Interval(job.id)
  {
    hide Due, JobKey, Applicable, Remembers;
    var s, e := states[n], events[n];
    assert Enabled(s, e);
    ListIsDue(s, e);
    RemembersHolds(states, events, n);
    DueIsExact(e.enabled, e.environments, s.lastRunAt, e.now, job);
    WaitedSinceRuns(s, e.now, job);
  }

  lemma WaitedSinceRuns(s: State, now: int, job: DueJob)
    requires Remembers(s)
    ensures Waited(s.lastRunAt, now, job) <==>
      forall r :: 0 <= r < |s.runs| && JobKey(s.runs[r].job) == JobKey(job) ==> now - s.runs[r].startedAt >= Interval(job.id)
  {
    hide JobKey, Interval;
  }

  // ---- Every cycle ends ----

  predicate MovesCycle(e: Event, c: nat) {
    (e.Advance? || e.RunSettles?) && e.cycle == c
  }

  /** How many steps a cycle is from its end: two for each job still to run, and what its phase adds. */
  function StepsLeft(cycle: Cycle): nat
    requires cycle.started <= |cycle.jobs|
  {
    match cycle.phase
    case Ended => 0
    case Ready => 2 * (|cycle.jobs| - cycle.started) + 1
    case Awaiting(_) => 2 * (|cycle.jobs| - cycle.started) + 2
  }

  predicate UnderWay(s: State, c: nat) {
    c < |s.cycles| && s.cycles[c].phase != Ended
  }

  lemma OthersStay(s: State, e: Event, c: nat)
    requires Enabled(s, e) && c < |s.cycles| && !MovesCycle(e, c)
    ensures c < |Next(s, e).cycles| && Next(s, e).cycles[c] == s.cycles[c]
  {
    hide JobKey, Due;
  }

  lemma AdvanceNears(s: State, e: Event)
    requires Enabled(s, e) && e.Advance? && s.cycles[e.cycle].started <= |s.cycles[e.cycle].jobs|
    ensures |Next(s, e).cycles| == |s.cycles|
    ensures var before, after := s.cycles[e.cycle], Next(s, e).cycles[e.cycle];
      after.started <= |after.jobs| && StepsLeft(after) < StepsLeft(before)
  {
    hide JobKey;
  }

  lemma SettleNears(s: State, e: Event)
    requires Enabled(s, e) && e.RunSettles? && s.cycles[e.cycle].started <= |s.cycles[e.cycle].jobs|
    ensures |Next(s, e).cycles| == |s.cycles|
    ensures var before, after := s.cycles[e.cycle], Next(s, e).cycles[e.cycle];
      after.started <= |after.jobs| && StepsLeft(after) < StepsLeft(before)
  {}

  /** Every step of a cycle, a failed run included, brings it nearer to its end, and no other step takes it farther away. */
  lemma CycleNears(s: State, e: Event, c: nat)
    requires Enabled(s, e) && c < |s.cycles| && s.cycles[c].started <= |s.cycles[c].jobs|
    ensures c < |Next(s, e).cycles| && Next(s, e).cycles[c].started <= |Next(s, e).cycles[c].jobs|
    ensures StepsLeft(Next(s, e).cycles[c]) <= StepsLeft(s.cycles[c])
    ensures MovesCycle(e, c) ==> StepsLeft(Next(s, e).cycles[c]) < StepsLeft(s.cycles[c])
  {
    hide Next, Enabled, StepsLeft;
    if !MovesCycle(e, c) {
      OthersStay(s, e, c);
    } else if e.Advance? {
      AdvanceNears(s, e);
    } else {
      SettleNears(s, e);
    }
  }

  /** A cycle has ended exactly when it has no step left to make. */
  lemma EndedIffQuiet(s: State, c: nat)
    requires Orderly(s) && c < |s.cycles|
    ensures (forall e :: Enabled(s, e) ==> !MovesCycle(e, c)) <==> s.cycles[c].phase == Ended
  {
    assert PrefixRun(s, c);
    match s.cycles[c].phase
    case Ready => assert MovesCycle(Advance(c, true, s.clock), c);
    case Awaiting(_) => assert MovesCycle(RunSettles(c, s.clock, true), c);
    case Ended =>
  }

  /** A run that never ends. */
  ghost predicate IsEndless(states: nat -> State, events: nat -> Event) {
    && (exists clock :: states(0) == Initial(clock))
    && forall n: nat {:trigger events(n)} :: Enabled(states(n), events(n)) && states(n + 1) == Next(states(n), events(n))
  }

  ghost predicate MovesLater(events: nat -> Event, m: nat, c: nat) {
    exists n: nat :: m <= n && MovesCycle(events(n), c)
  }

  /** What the loop takes for granted: a job's run settles, well or badly, and a turn of the loop that is due comes. */
  ghost predicate Fair(states: nat -> State, events: nat -> Event) {
    forall m: nat, c: nat {:trigger UnderWay(states(m), c)} :: UnderWay(states(m), c) ==> MovesLater(events, m, c)
  }

  lemma {:induction false} EndlessOrderly(states: nat -> State, events: nat -> Event, n: nat)
    requires IsEndless(states, events)
    ensures Orderly(states(n))
  {
    if n > 0 {
      EndlessOrderly(states, events, n - 1);
      OrderKept(states(n - 1), events(n - 1));
    }
  }

  lemma {:induction false} NeverFarther(states: nat -> State, events: nat -> Event, m: nat, n: nat, c: nat)
    requires IsEndless(states, events) && m <= n && c < |states(m).cycles|
    ensures c < |states(n).cycles| && states(n).cycles[c].jobs == states(m).cycles[c].jobs
    ensures states(m).cycles[c].started <= |states(m).cycles[c].jobs|
    ensures states(n).cycles[c].started <= |states(n).cycles[c].jobs|
    ensures StepsLeft(states(n).cycles[c]) <= StepsLeft(states(m).cycles[c])
    decreases n
  {
    hide StepsLeft, Orderly, Next;
    EndlessOrderly(states, events, m);
    StartedWithin(states(m), c);
    if m < n {
      NeverFarther(states, events, m, n - 1, c);
      CycleNears(states(n - 1), events(n - 1), c);
      ListStays(states(n - 1), events(n - 1), c);
    }
  }

  lemma StartedWithin(s: State, c: nat)
    requires Orderly(s) && c < |s.cycles|
    ensures s.cycles[c].started <= |s.cycles[c].jobs|
  {
    assert PrefixRun(s, c);
  }

  predicate Refuses(e: Event, c: nat) {
    e.Advance? && e.cycle == c && !e.refreshed
  }

  lemma NoCycleYet(states: nat -> State, events: nat -> Event)
    requires IsEndless(states, events)
    ensures states(0).cycles == []
  {}

  lemma LostNow(s: State, e: Event, c: nat)
    requires Enabled(s, e) && c < |Next(s, e).cycles| && Next(s, e).cycles[c].lockLost
    ensures (c < |s.cycles| && s.cycles[c].lockLost) || Refuses(e, c)
  {
    hide JobKey, Due;
  }

  /** A cycle is cut short only by a refresh of the lock that failed. */
  lemma {:induction false} LostByRefresh(states: nat -> State, events: nat -> Event, n: nat, c: nat) returns (k: nat)
    requires IsEndless(states, events) && c < |states(n).cycles| && states(n).cycles[c].lockLost
    ensures k < n && Refuses(events(k), c)
  {
    hide Next, Enabled, Refuses;
    NoCycleYet(states, events);
    assert Enabled(states(n - 1), events(n - 1));
    LostNow(states(n - 1), events(n - 1), c);
    if c < |states(n - 1).cycles| && states(n - 1).cycles[c].lockLost {
      k := LostByRefresh(states, events, n - 1, c);
    } else {
      k := n - 1;
    }
  }

  /**
   * In every endless run in which jobs settle, as ok or failed, and the loop gets its turns, every cycle ends,
   * having run and finished each of its jobs in order, unless a refresh of the lock failed on the way. No job that
   * throws and no tick that overlaps keeps a later job from running.
   */
  lemma {:induction false} EveryCycleEnds(states: nat -> State, events: nat -> Event, m: nat, c: nat) returns (n: nat)
    requires IsEndless(states, events) && Fair(states, events) && c < |states(m).cycles|
    ensures m <= n && c < |states(n).cycles| && states(n).cycles[c].phase == Ended
    ensures states(n).cycles[c].jobs == states(m).cycles[c].jobs
    ensures JobsRun(states(n).runs, c) == states(m).cycles[c].jobs || exists k: nat :: k < n && Refuses(events(k), c)
    ensures forall r :: 0 <= r < |states(n).runs| && states(n).runs[r].cycle == c ==> states(n).runs[r].status != Running
    decreases var cycle := states(m).cycles[c]; if cycle.started <= |cycle.jobs| then StepsLeft(cycle) else 0
  {
    hide StepsLeft, Next, JobsRun, OneAtATime;
    EndlessOrderly(states, events, m);
    if !UnderWay(states(m), c) {
      n := m;
      EndedHasRun(states(m), c);
      if states(m).cycles[c].lockLost {
        var k := LostByRefresh(states, events, m, c);
      }
    } else {
      assert MovesLater(events, m, c);
      var l: nat :| m <= l && MovesCycle(events(l), c);
      NeverFarther(states, events, m, l, c);
      CycleNears(states(l), events(l), c);
      ListStays(states(l), events(l), c);
      n := EveryCycleEnds(states, events, l + 1, c);
    }
  }

  lemma EndedHasRun(s: State, c: nat)
    requires Orderly(s) && c < |s.cycles| && s.cycles[c].phase == Ended
    ensures s.cycles[c].lockLost || JobsRun(s.runs, c) == s.cycles[c].jobs
    ensures forall r :: 0 <= r < |s.runs| && s.runs[r].cycle == c ==> s.runs[r].status != Running
  {
    assert PrefixRun(s, c);
  }

  // ---- Cadence ----

  /** Everything that can be due: what is due to a collector that has run nothing yet. */
  function AllTargets(enabled: seq<JobId>, environments: seq<Environment>): seq<DueJob> {
    Due(enabled, environments, map[], 0)
  }

  /** No two of the jobs a tick can find due share a key. */
  predicate WellPosed(e: Event) {
    e.Tick? ==> DistinctKeys(AllTargets(e.enabled, e.environments))
  }

  predicate DuplicateFree(environments: seq<Environment>) {
    && (forall i, j :: 0 <= i < j < |environments| ==>
      environments[i].connectionId != environments[j].connectionId || environments[i].scope != environments[j].scope)
    && (forall i :: 0 <= i < |environments| ==> '\0' !in environments[i].connectionId)
  }

  predicate DistinctKeys(jobs: seq<DueJob>) {
    forall i, j :: 0 <= i < j < |jobs| ==> JobKey(jobs[i]) != JobKey(jobs[j])
  }

  /** The last start of every key is remembered, and earlier ones are at least an interval before it. */
  predicate Spaced(s: State) {
    && (forall r :: 0 <= r < |s.runs| ==>
          JobKey(s.runs[r].job) in s.lastRunAt && s.runs[r].startedAt <= s.lastRunAt[JobKey(s.runs[r].job)])
    && (forall q, r :: 0 <= q < r < |s.runs| && JobKey(s.runs[q].job) == JobKey(s.runs[r].job) ==>
          s.runs[r].startedAt - s.runs[q].startedAt >= EveryMs(s.runs[r].job.id))
  }

  /** What a cycle has still to run was due when it began, and still is. */
  predicate StillDue(s: State, c: nat)
    requires c < |s.cycles|
  {
    var cycle := s.cycles[c];
    cycle.phase != Ended ==>
      && cycle.nowMs <= s.clock
      && DistinctKeys(cycle.jobs)
      && forall j :: cycle.started <= j < |cycle.jobs| ==> IsDue(s.lastRunAt, cycle.nowMs, cycle.jobs[j])
  }

  predicate Cadenced(s: State) {
    Spaced(s) && forall c :: 0 <= c < |s.cycles| ==> StillDue(s, c)
  }

  lemma {:induction false} EnvironmentJobsDistinct(id: JobId, environments: seq<Environment>)
    requires DuplicateFree(environments)
    ensures Distinct(EnvironmentJobs(id, environments))
    ensures forall j :: j in EnvironmentJobs(id, environments) ==> NulFree(j)
  {
    if environments != [] {
      var before, last := environments[..|environments| - 1], environments[|environments| - 1];
      EnvironmentJobsDistinct(id, before);
      EnvironmentJobsAre(id, before, EnvironmentJob(id, last.connectionId, last.scope));
    }
  }

  lemma {:induction false} DueAmongDistinct(targets: seq<DueJob>, lastRunAt: map<string, int>, now: int)
    requires Distinct(targets)
    ensures Distinct(DueAmong(targets, lastRunAt, now))
  {
    if targets != [] {
      var before, last := targets[..|targets| - 1], targets[|targets| - 1];
      DueAmongDistinct(before, lastRunAt, now);
      DueAmongAre(before, lastRunAt, now, last);
    }
  }

  lemma TargetsDistinct(id: JobId, environments: seq<Environment>)
    requires DuplicateFree(environments)
    ensures Distinct(Targets(id, environments))
    ensures forall j :: j in Targets(id, environments) ==> NulFree(j) && j.id == id
  {
    EnvironmentJobsDistinct(id, environments);
    forall j | j in Targets(id, environments) ensures j.id == id {
      EnvironmentJobsAre(id, environments, j);
    }
  }

  lemma DistinctAppend(a: seq<DueJob>, b: seq<DueJob>)
    requires Distinct(a) && Distinct(b) && forall j :: j in b ==> j !in a
    ensures Distinct(a + b)
  {
    forall i, j | 0 <= i < j < |a + b| ensures (a + b)[i] != (a + b)[j] {
      if i < |a| <= j {
        assert a[i] in a && b[j - |a|] in b;
      }
    }
  }

  lemma {:induction false} DueDistinct(enabled: seq<JobId>, environments: seq<Environment>)
    requires DuplicateFree(environments) && Distinct(enabled)
    ensures Distinct(AllTargets(enabled, environments))
    ensures forall j :: j in AllTargets(enabled, environments) ==> NulFree(j)
  {
    if enabled != [] {
      var before, last := enabled[..|enabled| - 1], enabled[|enabled| - 1];
      var targets := Targets(last, environments);
      DueDistinct(before, environments);
      TargetsDistinct(last, environments);
      DueAmongDistinct(targets, map[], 0);
      forall j | j in DueAmong(targets, map[], 0)
        ensures NulFree(j) && j !in AllTargets(before, environments)
      {
        DueAmongAre(targets, map[], 0, j);
        DueAre(before, environments, map[], 0, j);
        assert last !in before;
      }
      DistinctAppend(AllTargets(before, environments), DueAmong(targets, map[], 0));
    }
  }

  /** Enabled jobs and environments without duplicates, and connection ids without NULs, are all it takes. */
  lemma DuplicateFreeIsWellPosed(enabled: seq<JobId>, environments: seq<Environment>)
    requires DuplicateFree(environments) && Distinct(enabled)
    ensures DistinctKeys(AllTargets(enabled, environments))
  {
    var jobs := AllTargets(enabled, environments);
    DueDistinct(enabled, environments);
    forall i, j | 0 <= i < j < |jobs| ensures JobKey(jobs[i]) != JobKey(jobs[j]) {
      if JobKey(jobs[i]) == JobKey(jobs[j]) {
        KeysAreInjective(jobs[i], jobs[j]);
      }
    }
  }

  // ---- What is due is part of what can be due ----

  lemma KeysOfConcat(a: seq<DueJob>, b: seq<DueJob>)
    ensures DistinctKeys(a + b) <==>
      DistinctKeys(a) && DistinctKeys(b) && forall x, y :: x in a && y in b ==> JobKey(x) != JobKey(y)
  {
    if DistinctKeys(a + b) {
      assert forall i :: 0 <= i < |a| ==> (a + b)[i] == a[i];
      assert forall i :: 0 <= i < |b| ==> (a + b)[|a| + i] == b[i];
    } else {
      var i, j :| 0 <= i < j < |a + b| && JobKey((a + b)[i]) == JobKey((a + b)[j]);
      if i < |a| <= j {
        assert a[i] in a && b[j - |a|] in b;
      }
    }
  }

  lemma {:induction false} DueAmongKeys(targets: seq<DueJob>, lastRunAt: map<string, int>, now: int)
    requires DistinctKeys(targets)
    ensures DistinctKeys(DueAmong(targets, lastRunAt, now))
  {
    hide DistinctKeys;
    if targets != [] {
      var before, last := targets[..|targets| - 1], targets[|targets| - 1];
      AllButLast(targets);
      KeysOfConcat(before, [last]);
      DueAmongKeys(before, lastRunAt, now);
      KeysOfConcat(DueAmong(before, lastRunAt, now), [last]);
      forall x | x in DueAmong(before, lastRunAt, now) ensures JobKey(x) != JobKey(last) {
        DueAmongAre(before, lastRunAt, now, x);
        assert last in [last];
      }
      assert DueAmong(before, lastRunAt, now) + [] == DueAmong(before, lastRunAt, now);
    }
  }

  lemma {:induction false} NothingRanAllDue(targets: seq<DueJob>, now: int)
    ensures DueAmong(targets, map[], now) == targets
  {
    if targets != [] {
      NothingRanAllDue(targets[..|targets| - 1], now);
      AllButLast(targets);
    }
  }

  lemma {:induction false} AllTargetsAtAnyTime(enabled: seq<JobId>, environments: seq<Environment>, now: int)
    ensures Due(enabled, environments, map[], now) == AllTargets(enabled, environments)
  {
    if enabled != [] {
      AllTargetsAtAnyTime(enabled[..|enabled| - 1], environments, now);
      NothingRanAllDue(Targets(enabled[|enabled| - 1], environments), now);
      NothingRanAllDue(Targets(enabled[|enabled| - 1], environments), 0);
    }
  }

  lemma {:induction false} DueKeys(
      enabled: seq<JobId>, environments: seq<Environment>, lastRunAt: map<string, int>, now: int)
    requires DistinctKeys(AllTargets(enabled, environments))
    ensures DistinctKeys(Due(enabled, environments, lastRunAt, now))
  {
    if enabled != [] {
      var before := enabled[..|enabled| - 1];
      var targets := Targets(enabled[|enabled| - 1], environments);
      NothingRanAllDue(targets, 0);
      KeysOfConcat(AllTargets(before, environments), targets);
      DueKeys(before, environments, lastRunAt, now);
      DueAmongKeys(targets, lastRunAt, now);
      var a, b := Due(before, environments, lastRunAt, now), DueAmong(targets, lastRunAt, now);
      forall x, y | x in a && y in b ensures JobKey(x) != JobKey(y) {
        DueAre(before, environments, lastRunAt, now, x);
        DueAre(before, environments, map[], 0, x);
        DueAmongAre(targets, lastRunAt, now, y);
      }
      KeysOfConcat(a, b);
    }
  }

  lemma NewCycleIsDue(s: State, e: Event)
    requires e.Tick? && WellPosed(e)
    ensures DistinctKeys(NewCycle(s, e).jobs)
    ensures forall j :: 0 <= j < |NewCycle(s, e).jobs| ==> IsDue(s.lastRunAt, e.now, NewCycle(s, e).jobs[j])
  {
    var jobs := NewCycle(s, e).jobs;
    DueKeys(e.enabled, e.environments, s.lastRunAt, e.now);
    forall j | 0 <= j < |jobs| ensures IsDue(s.lastRunAt, e.now, jobs[j]) {
      DueAre(e.enabled, e.environments, s.lastRunAt, e.now, jobs[j]);
    }
  }

  lemma StartKeepsCadence(s: State, c: nat, now: int)
    requires OneAtATime(s) && Cadenced(s) && s.clock <= now
    requires c < |s.cycles| && s.cycles[c].phase == Ready && s.cycles[c].started < |s.cycles[c].jobs|
    ensures Cadenced(StartJob(s, c, now))
  {
    hide JobKey;
    var s' := StartJob(s, c, now);
    assert StillDue(s, c);
    forall k | 0 <= k < |s'.cycles| ensures StillDue(s', k) {
      assert StillDue(s, k);
    }
  }

  lemma SpacingStays(s: State, s': State)
    requires Spaced(s) && s'.lastRunAt == s.lastRunAt && |s'.runs| == |s.runs|
    requires forall r :: 0 <= r < |s.runs| ==> s'.runs[r].job == s.runs[r].job && s'.runs[r].startedAt == s.runs[r].startedAt
    ensures Spaced(s')
  {
    hide JobKey;
  }

  lemma StaysDue(s: State, s': State, c: nat)
    requires c < |s.cycles| && c < |s'.cycles| && StillDue(s, c)
    requires s'.lastRunAt == s.lastRunAt && s.clock <= s'.clock
    requires s'.cycles[c].phase != Ended ==> s.cycles[c].phase != Ended
    requires var a, b := s.cycles[c], s'.cycles[c]; b.nowMs == a.nowMs && b.jobs == a.jobs && b.started == a.started
    ensures StillDue(s', c)
  {
    hide DistinctKeys, IsDue;
  }

  lemma BeginsDue(s: State, e: Event)
    requires e.Tick? && WellPosed(e) && Enabled(s, e) && |Next(s, e).cycles| > |s.cycles|
    ensures StillDue(Next(s, e), |s.cycles|)
  {
    hide Due, DistinctKeys, IsDue;
    NewCycleIsDue(s, e);
  }

  lemma CadenceKept(s: State, e: Event)
    requires OneAtATime(s) && Cadenced(s) && Enabled(s, e) && WellPosed(e)
    ensures Cadenced(Next(s, e))
  {
    hide Spaced, StillDue, WellPosed, NewCycle, StartJob;
    var s' := Next(s, e);
    if e.Advance? && s.cycles[e.cycle].started < |s.cycles[e.cycle].jobs| && e.refreshed {
      StartKeepsCadence(s, e.cycle, e.now);
    } else {
      SpacingStays(s, s');
      forall k | 0 <= k < |s'.cycles| ensures StillDue(s', k) {
        if k < |s.cycles| {
          StaysDue(s, s', k);
        } else {
          BeginsDue(s, e);
        }
      }
    }
  }

  lemma {:induction false} CadenceHolds(states: seq<State>, events: seq<Event>, n: nat)
    requires IsRun(states, events) && n < |states|
    requires forall k :: 0 <= k < |events| ==> WellPosed(events[k])
    ensures Cadenced(states[n])
  {
    hide Next, OneAtATime, WellPosed;
    if n > 0 {
      CadenceHolds(states, events, n - 1);
      OrderHolds(states, events, n - 1);
      CadenceKept(states[n - 1], events[n - 1]);
    }
  }

  /** Any two starts of one job key are at least its interval apart. */
  predicate StartsApart(runs: seq<Run>) {
    forall q, r :: 0 <= q < r < |runs| && JobKey(runs[q].job) == JobKey(runs[r].job) ==>
      runs[r].startedAt - runs[q].startedAt >= Interval(runs[r].job.id)
  }

  /** Starts of one job are an interval apart, however long jobs take, however they end, and whatever ticks overlap. */
  lemma StartsAreSpaced(states: seq<State>, events: seq<Event>, n: nat)
    requires IsRun(states, events) && n < |states|
    requires forall k :: 0 <= k < |events| ==> WellPosed(events[k])
    ensures StartsApart(states[n].runs)
  {
    CadenceHolds(states, events, n);
  }

  // ---- And only then ----

  predicate AsksFor(events: seq<Event>, enabled: seq<JobId>, environments: seq<Environment>) {
    forall k :: 0 <= k < |events| && events[k].Tick? ==> events[k].enabled == enabled && events[k].environments == environments
  }

  lemma RunGrows(states: seq<State>, events: seq<Event>, e: Event)
    requires IsRun(states, events) && Enabled(states[|events|], e)
    ensures IsRun(states + [Next(states[|events|], e)], events + [e])
  {
    var states', events' := states + [Next(states[|events|], e)], events + [e];
    forall k | 0 <= k < |events'| ensures Enabled(states'[k], events'[k]) && states'[k + 1] == Next(states'[k], events'[k]) {
      if k < |events| {
        assert events'[k] == events[k];
      }
    }
  }

  /** The first k jobs of a cycle have run, each in no time. */
  predicate HasRun(s: State, jobs: seq<DueJob>, now: int, k: nat) {
    && k <= |jobs| && s.clock == now
    && s.cycles == [Cycle(now, jobs, k, Ready, false)]
    && |s.runs| == k && forall i :: 0 <= i < k ==> s.runs[i].job == jobs[i] && s.runs[i].startedAt == now
  }

  /** One more job of the cycle starts and settles at once. */
  lemma JobRuns(s: State, jobs: seq<DueJob>, now: int, k: nat)
    requires HasRun(s, jobs, now, k) && k < |jobs|
    ensures Enabled(s, Advance(0, true, now))
    ensures Enabled(Next(s, Advance(0, true, now)), RunSettles(0, now, true))
    ensures HasRun(Next(Next(s, Advance(0, true, now)), RunSettles(0, now, true)), jobs, now, k + 1)
  {}

  lemma {:induction false} CycleRuns(enabled: seq<JobId>, environments: seq<Environment>, now: int, k: nat)
      returns (states: seq<State>, events: seq<Event>)
    requires k <= |AllTargets(enabled, environments)|
    ensures IsRun(states, events) && AsksFor(events, enabled, environments)
    ensures HasRun(states[|events|], AllTargets(enabled, environments), now, k)
  {
    hide Due, StartJob;
    if k == 0 {
      var tick := Tick(now, true, enabled, environments);
      AllTargetsAtAnyTime(enabled, environments, now);
      states, events := [Initial(now), Next(Initial(now), tick)], [tick];
    } else {
      states, events := CycleRuns(enabled, environments, now, k - 1);
      JobRuns(states[|events|], AllTargets(enabled, environments), now, k - 1);
      RunGrows(states, events, Advance(0, true, now));
      states, events := states + [Next(states[|events|], Advance(0, true, now))], events + [Advance(0, true, now)];
      RunGrows(states, events, RunSettles(0, now, true));
      states, events := states + [Next(states[|events|], RunSettles(0, now, true))], events + [RunSettles(0, now, true)];
    }
  }

  /** With two targets of one key, an environment listed twice say, a single cycle starts that key twice at one moment. */
  lemma DuplicatesBreakCadence(enabled: seq<JobId>, environments: seq<Environment>, now: int)
      returns (states: seq<State>, events: seq<Event>)
    requires !DistinctKeys(AllTargets(enabled, environments))
    ensures IsRun(states, events) && AsksFor(events, enabled, environments)
    ensures !StartsApart(states[|events|].runs)
  {
    hide AllTargets, Next, Enabled;
    var jobs := AllTargets(enabled, environments);
    states, events := CycleRuns(enabled, environments, now, |jobs|);
    var i: nat, j: nat :| i < j < |jobs| && JobKey(jobs[i]) == JobKey(jobs[j]);
    TwoAtOnce(states[|events|].runs, i, j);
  }

  lemma TwoAtOnce(runs: seq<Run>, i: nat, j: nat)
    requires i < j < |runs| && JobKey(runs[i].job) == JobKey(runs[j].job) && runs[i].startedAt == runs[j].startedAt
    ensures !StartsApart(runs)
  {
    assert EveryMs(runs[j].job.id) > 0;
  }

  /** Every run that asks for these jobs and environments keeps the cadence exactly when no two targets share a key. */
  lemma CadenceIffDistinctKeys(enabled: seq<JobId>, environments: seq<Environment>)
    ensures (forall states: seq<State>, events: seq<Event> {:trigger IsRun(states, events)} ::
              IsRun(states, events) && AsksFor(events, enabled, environments) ==> StartsApart(states[|events|].runs))
       <==> DistinctKeys(AllTargets(enabled, environments))
  {
    if DistinctKeys(AllTargets(enabled, environments)) {
      forall states: seq<State>, events: seq<Event> | IsRun(states, events) && AsksFor(events, enabled, environments)
        ensures StartsApart(states[|events|].runs)
      {
        StartsAreSpaced(states, events, |events|);
      }
    } else {
      var states, events := DuplicatesBreakCadence(enabled, environments, 0);
      assert IsRun(states, events);
    }
  }

  /** The least input that breaks it: one job, and one environment listed twice. */
  lemma ListedTwice(home: Environment)
    ensures !DistinctKeys(AllTargets([Detect], [home, home]))
  {
    var job := EnvironmentJob(Detect, home.connectionId, home.scope);
    TargetsOfTwo(home);
    NothingRanAllDue([job, job], 0);
    assert [Detect][..0] == [];
    assert AllTargets([], [home, home]) == [];
    assert AllTargets([Detect], [home, home]) == [job, job];
  }

  lemma TargetsOfTwo(home: Environment)
    ensures var job := EnvironmentJob(Detect, home.connectionId, home.scope); Targets(Detect, [home, home]) == [job, job]
  {
    assert [home, home][..1] == [home] && [home][..0] == [];
    assert EnvironmentJobs(Detect, []) == [];
    assert EnvironmentJobs(Detect, [home]) == [EnvironmentJob(Detect, home.connectionId, home.scope)];
  }
}
