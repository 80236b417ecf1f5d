/**
 * The collector: which jobs are due, and the cycle that runs them. A tick and a cycle's turns are steps, as
 * the awaits inside a cycle let other ticks, and the stop, come between them.
 */
module Runner {
  import opened Collections
  import opened Wrappers
  import opened Keys

  datatype JobId =
    | Metrics | Detect | Deployments | Errors | Synthetics | Baselines | Cloudflare | Notify | Digest | Ingest | Compact

  const MINUTE: int := 60_000
  const HOUR: int := 60 * MINUTE

  function Name(id: JobId): string {
    match id
    case Metrics => "metrics"
    case Detect => "detect"
    case Deployments => "deployments"
    case Errors => "errors"
    case Synthetics => "synthetics"
    case Baselines => "baselines"
    case Cloudflare => "cloudflare"
    case Notify => "notify"
    case Digest => "digest"
    case Ingest => "ingest"
    case Compact => "compact"
  }

  function EveryMs(id: JobId): int {
    match id
    case Metrics => 5 * MINUTE
    case Detect => 5 * MINUTE
    case Deployments => 5 * MINUTE
    case Errors => 15 * MINUTE
    case Synthetics => 5 * MINUTE
    case Baselines => HOUR
    case Cloudflare => 6 * HOUR
    case Notify => MINUTE
    case Digest => HOUR
    case Ingest => MINUTE
    case Compact => 24 * HOUR
  }

  predicate InstanceWide(id: JobId) {
    id.Cloudflare? || id.Notify? || id.Digest? || id.Ingest? || id.Compact?
  }

  /** The environment jobs that read CloudWatch; `detect` is the one that serves every cloud. */
  predicate AwsOnly(id: JobId) {
    !InstanceWide(id) && !id.Detect?
  }

  datatype Environment = Environment(connectionId: string, scope: string, provider: string)

  datatype DueJob = InstanceJob(id: JobId) | EnvironmentJob(id: JobId, connectionId: string, scope: string)

  function JobKey(job: DueJob): string {
    match job
    case InstanceJob(id) => Name(id)
    case EnvironmentJob(id, connectionId, scope) => Join3(Name(id), connectionId, scope)
  }

  predicate NulFree(job: DueJob) {
    job.EnvironmentJob? ==> '\0' !in job.connectionId
  }

  predicate Applies(id: JobId, e: Environment) {
    AwsOnly(id) ==> e.provider == "aws"
  }

  function EnvironmentJobs(id: JobId, environments: seq<Environment>): seq<DueJob> {
    if environments == [] then []
    else
      var last := environments[|environments| - 1];
      EnvironmentJobs(id, environments[..|environments| - 1])
      + (if Applies(id, last) then [EnvironmentJob(id, last.connectionId, last.scope)] else [])
  }

  function Targets(id: JobId, environments: seq<Environment>): seq<DueJob> {
    if InstanceWide(id) then [InstanceJob(id)] else EnvironmentJobs(id, environments)
  }

  predicate IsDue(lastRunAt: map<string, int>, now: int, job: DueJob) {
    JobKey(job) in lastRunAt ==> now - lastRunAt[JobKey(job)] >= EveryMs(job.id)
  }

  function DueAmong(targets: seq<DueJob>, lastRunAt: map<string, int>, now: int): seq<DueJob> {
    if targets == [] then []
    else
      var last := targets[|targets| - 1];
      DueAmong(targets[..|targets| - 1], lastRunAt, now) + (if IsDue(lastRunAt, now, last) then [last] else [])
  }

  function Due(enabled: seq<JobId>, environments: seq<Environment>, lastRunAt: map<string, int>, now: int): seq<DueJob> {
    if enabled == [] then []
    else
      Due(enabled[..|enabled| - 1], environments, lastRunAt, now)
      + DueAmong(Targets(enabled[|enabled| - 1], environments), lastRunAt, now)
  }

  lemma DueAmongStep(targets: seq<DueJob>, lastRunAt: map<string, int>, now: int, j: nat)
    requires j < |targets|
    ensures DueAmong(targets[..j + 1], lastRunAt, now)
         == DueAmong(targets[..j], lastRunAt, now) + (if IsDue(lastRunAt, now, targets[j]) then [targets[j]] else [])
  {
    assert targets[..j + 1][..j] == targets[..j];
  }

  lemma DueStep(enabled: seq<JobId>, environments: seq<Environment>, lastRunAt: map<string, int>, now: int, i: nat)
    requires i < |enabled|
    ensures Due(enabled[..i + 1], environments, lastRunAt, now)
         == Due(enabled[..i], environments, lastRunAt, now) + DueAmong(Targets(enabled[i], environments), lastRunAt, now)
  {
    assert enabled[..i + 1][..i] == enabled[..i];
  }

  method PushDue(before: seq<DueJob>, targets: seq<DueJob>, lastRunAt: map<string, int>, now: int) returns (due: seq<DueJob>)
    ensures due == before + DueAmong(targets, lastRunAt, now)
  {
    due := before;
    for j := 0 to |targets|
      invariant due == before + DueAmong(targets[..j], lastRunAt, now)
    {
      DueAmongStep(targets, lastRunAt, now, j);
      if JobKey(targets[j]) !in lastRunAt || now - lastRunAt[JobKey(targets[j])] >= EveryMs(targets[j].id) {
        AppendAssociates(before, DueAmong(targets[..j], lastRunAt, now), [targets[j]]);
        due := due + [targets[j]];
      } else {
        assert DueAmong(targets[..j], lastRunAt, now) + [] == DueAmong(targets[..j], lastRunAt, now);
      }
    }
    assert targets[..|targets|] == targets;
  }

  method DueJobs(enabled: seq<JobId>, environments: seq<Environment>, lastRunAt: map<string, int>, now: int)
    returns (due: seq<DueJob>)
    ensures due == Due(enabled, environments, lastRunAt, now)
  {
    due := [];
    for i := 0 to |enabled|
      invariant due == Due(enabled[..i], environments, lastRunAt, now)
    {
      due := PushDue(due, Targets(enabled[i], environments), lastRunAt, now);
      DueStep(enabled, environments, lastRunAt, now, i);
    }
    assert enabled[..|enabled|] == enabled;
  }

  // ---- What is due ----

  /** How long each job waits between two starts, in milliseconds. */
  function Interval(id: JobId): int {
    if id in {Notify, Ingest} then 60_000
    else if id in {Metrics, Detect, Deployments, Synthetics} then 300_000
    else if id == Errors then 900_000
    else if id in {Baselines, Digest} then 3_600_000
    else if id == Cloudflare then 21_600_000
    else 86_400_000
  }

  predicate Waited(lastRunAt: map<string, int>, now: int, job: DueJob) {
    JobKey(job) in lastRunAt ==> now - lastRunAt[JobKey(job)] >= Interval(job.id)
  }

  lemma WaitedIsDue(lastRunAt: map<string, int>, now: int, job: DueJob)
    ensures Waited(lastRunAt, now, job) <==> IsDue(lastRunAt, now, job)
  {
    hide JobKey;
  }

  /** The jobs of the instance as a whole; the others run for an environment each. */
  const WHOLE: set<JobId> := {Cloudflare, Notify, Digest, Ingest, Compact}

  predicate Applicable(enabled: seq<JobId>, environments: seq<Environment>, job: DueJob) {
    && job.id in enabled
    && (job.id in WHOLE ==> job.InstanceJob?)
    && (job.id !in WHOLE ==>
          && job.EnvironmentJob?
          && exists e :: e in environments && e.connectionId == job.connectionId && e.scope == job.scope
               && (job.id == Detect || e.provider == "aws"))
  }

  lemma {:induction false} EnvironmentJobsAre(id: JobId, environments: seq<Environment>, job: DueJob)
    ensures job in EnvironmentJobs(id, environments) <==>
      job.EnvironmentJob? && job.id == id
      && exists e :: e in environments && e.connectionId == job.connectionId && e.scope == job.scope && Applies(id, e)
  {
    if environments != [] {
      var before, last := environments[..|environments| - 1], environments[|environments| - 1];
      EnvironmentJobsAre(id, before, job);
      assert forall e :: e in environments <==> e in before || e == last;
    }
  }

  lemma {:induction false} DueAmongAre(targets: seq<DueJob>, lastRunAt: map<string, int>, now: int, job: DueJob)
    ensures job in DueAmong(targets, lastRunAt, now) <==> job in targets && IsDue(lastRunAt, now, job)
  {
    if targets != [] {
      var before, last := targets[..|targets| - 1], targets[|targets| - 1];
      DueAmongAre(before, lastRunAt, now, job);
      assert job in targets <==> job in before || job == last;
    }
  }

  lemma TargetsAre(id: JobId, environments: seq<Environment>, job: DueJob)
    ensures job in Targets(id, environments) ==> job.id == id
    ensures job in Targets(job.id, environments) <==> Applicable([job.id], environments, job)
  {
    EnvironmentJobsAre(id, environments, job);
    EnvironmentJobsAre(job.id, environments, job);
  }

  lemma {:induction false} DueAre(
      enabled: seq<JobId>, environments: seq<Environment>, lastRunAt: map<string, int>, now: int, job: DueJob)
    ensures job in Due(enabled, environments, lastRunAt, now)
       <==> job.id in enabled && job in Targets(job.id, environments) && IsDue(lastRunAt, now, job)
  {
    hide IsDue, Targets;
    if enabled != [] {
      var before, last := enabled[..|enabled| - 1], enabled[|enabled| - 1];
      DueAre(before, environments, lastRunAt, now, job);
      DueAmongAre(Targets(last, environments), lastRunAt, now, job);
      TargetsAre(last, environments, job);
      assert job.id in enabled <==> job.id in before || job.id == last;
    }
  }

  /** Due is exactly the applicable jobs that never ran or whose interval has passed since they last started. */
  lemma DueIsExact(enabled: seq<JobId>, environments: seq<Environment>, lastRunAt: map<string, int>, now: int, job: DueJob)
    ensures job in Due(enabled, environments, lastRunAt, now)
       <==> Applicable(enabled, environments, job) && Waited(lastRunAt, now, job)
  {
    hide Due, Targets, Waited;
    DueAre(enabled, environments, lastRunAt, now, job);
    TargetsAre(job.id, environments, job);
    WaitedIsDue(lastRunAt, now, job);
  }

  // ---- In what order ----

  /** A place in the source's two nested lists: an enabled id, and an environment under it. */
  datatype Place = Place(at: nat, under: nat)

  /** The job for the p-th enabled id and the q-th environment; an instance-wide one stands at 0. */
  function JobAt(enabled: seq<JobId>, environments: seq<Environment>, p: nat, q: nat): Option<DueJob> {
    if p >= |enabled| then None
    else if enabled[p] in WHOLE then
      if q == 0 then Some(InstanceJob(enabled[p])) else None
    else if q < |environments| && (enabled[p] == Detect || environments[q].provider == "aws") then
      Some(EnvironmentJob(enabled[p], environments[q].connectionId, environments[q].scope))
    else None
  }

  /** The place holds a job that never ran, or last started at least its interval ago. */
  predicate DueAt(
      enabled: seq<JobId>, environments: seq<Environment>, lastRunAt: map<string, int>, now: int, place: Place) {
    var job := JobAt(enabled, environments, place.at, place.under);
    job.Some? && Waited(lastRunAt, now, job.value)
  }

  predicate Earlier(a: Place, b: Place) {
    a.at < b.at || (a.at == b.at && a.under < b.under)
  }

  predicate Ascending(places: seq<Place>) {
    forall i, j :: 0 <= i < j < |places| ==> Earlier(places[i], places[j])
  }

  predicate Fits(
      due: seq<DueJob>, places: seq<Place>,
      enabled: seq<JobId>, environments: seq<Environment>, lastRunAt: map<string, int>, now: int) {
    && |places| == |due|
    && forall i :: 0 <= i < |places| ==>
         && DueAt(enabled, environments, lastRunAt, now, places[i])
         && JobAt(enabled, environments, places[i].at, places[i].under) == Some(due[i])
  }

  ghost predicate Complete(
      places: seq<Place>, enabled: seq<JobId>, environments: seq<Environment>, lastRunAt: map<string, int>, now: int) {
    forall place: Place :: DueAt(enabled, environments, lastRunAt, now, place) ==> place in places
  }

  /** The list holds the job of each due place once, in the order of the enabled ids, and under each of the environments. */
  ghost predicate ListsDue(
      due: seq<DueJob>, places: seq<Place>,
      enabled: seq<JobId>, environments: seq<Environment>, lastRunAt: map<string, int>, now: int) {
    && Ascending(places) && Fits(due, places, enabled, environments, lastRunAt, now)
    && Complete(places, enabled, environments, lastRunAt, now)
  }

  lemma DueOfOneMore(id: JobId, before: seq<Environment>, last: Environment, lastRunAt: map<string, int>, now: int)
    ensures var job := EnvironmentJob(id, last.connectionId, last.scope);
      DueAmong(EnvironmentJobs(id, before + [last]), lastRunAt, now)
        == DueAmong(EnvironmentJobs(id, before), lastRunAt, now)
          + (if Applies(id, last) && Waited(lastRunAt, now, job) then [job] else [])
  {
    var job, jobs := EnvironmentJob(id, last.connectionId, last.scope), EnvironmentJobs(id, before);
    assert (before + [last])[..|before|] == before;
    assert (jobs + [job])[..|jobs|] == jobs && jobs + [] == jobs;
    WaitedIsDue(lastRunAt, now, job);
  }

  lemma JobUnderLast(id: JobId, before: seq<Environment>, last: Environment)
    requires !InstanceWide(id)
    ensures var job := EnvironmentJob(id, last.connectionId, last.scope);
      JobAt([id], before + [last], 0, |before|) == if Applies(id, last) then Some(job) else None
    ensures forall p: nat, q: nat :: q != |before| ==> JobAt([id], before + [last], p, q) == JobAt([id], before, p, q)
    ensures forall p: nat, q: nat :: JobAt([id], before, p, q).Some? ==> p == 0 && q < |before|
  {}

  /** The place under the last environment comes after all places under those before it, and is the only new one. */
  lemma OneEnvironmentMore(
      due: seq<DueJob>, places: seq<Place>, id: JobId, before: seq<Environment>, last: Environment,
      lastRunAt: map<string, int>, now: int)
    requires !InstanceWide(id) && ListsDue(due, places, [id], before, lastRunAt, now)
    ensures var job, q := EnvironmentJob(id, last.connectionId, last.scope), |before|;
      if Applies(id, last) && Waited(lastRunAt, now, job)
      then ListsDue(due + [job], places + [Place(0, q)], [id], before + [last], lastRunAt, now)
      else ListsDue(due, places, [id], before + [last], lastRunAt, now)
  {
    hide Waited, JobAt, Applies, Ascending, Complete, InstanceWide;
    JobUnderLast(id, before, last);
    forall i | 0 <= i < |places| ensures places[i].at == 0 && places[i].under < |before| {
      assert DueAt([id], before, lastRunAt, now, places[i]);
    }
    AscendingMore(places, Place(0, |before|));
    StillComplete(places, id, before, last, lastRunAt, now);
  }

  lemma AscendingMore(places: seq<Place>, last: Place)
    requires Ascending(places) && forall i :: 0 <= i < |places| ==> Earlier(places[i], last)
    ensures Ascending(places + [last])
  {}

  lemma StillComplete(
      places: seq<Place>, id: JobId, before: seq<Environment>, last: Environment, lastRunAt: map<string, int>, now: int)
    requires !InstanceWide(id) && Complete(places, [id], before, lastRunAt, now)
    ensures Complete(places + [Place(0, |before|)], [id], before + [last], lastRunAt, now)
    ensures !DueAt([id], before + [last], lastRunAt, now, Place(0, |before|)) ==>
      Complete(places, [id], before + [last], lastRunAt, now)
  {
    hide Waited, JobAt, InstanceWide;
    JobUnderLast(id, before, last);
    forall place: Place | DueAt([id], before + [last], lastRunAt, now, place)
      ensures place == Place(0, |before|) || place in places
    {
      if place.under != |before| {
        assert DueAt([id], before, lastRunAt, now, place);
      } else {
        OnlyOneId(id, before + [last], place);
      }
    }
  }

  lemma OnlyOneId(id: JobId, environments: seq<Environment>, place: Place)
    requires JobAt([id], environments, place.at, place.under).Some?
    ensures place.at == 0
  {}

  /** The places of one id's environment jobs, in the order of the environments. */
  lemma {:induction false} PlacesOfEnvironments(
      id: JobId, environments: seq<Environment>, lastRunAt: map<string, int>, now: int) returns (places: seq<Place>)
    requires !InstanceWide(id)
    ensures ListsDue(DueAmong(EnvironmentJobs(id, environments), lastRunAt, now), places, [id], environments, lastRunAt, now)
  {
    if environments == [] {
      places := [];
    } else {
      hide ListsDue, EnvironmentJobs, DueAmong, Waited, Applies;
      var q := |environments| - 1;
      var before, last := environments[..q], environments[q];
      places := PlacesOfEnvironments(id, before, lastRunAt, now);
      var job, due := EnvironmentJob(id, last.connectionId, last.scope), DueAmong(EnvironmentJobs(id, before), lastRunAt, now);
      AllButLast(environments);
      DueOfOneMore(id, before, last, lastRunAt, now);
      OneEnvironmentMore(due, places, id, before, last, lastRunAt, now);
      if Applies(id, last) && Waited(lastRunAt, now, job) {
        places := places + [Place(0, q)];
      } else {
        assert due + [] == due;
      }
    }
  }

  lemma DueOfInstance(id: JobId, lastRunAt: map<string, int>, now: int)
    ensures var job := InstanceJob(id);
      DueAmong([job], lastRunAt, now) == if Waited(lastRunAt, now, job) then [job] else []
  {
    hide Waited;
    WaitedIsDue(lastRunAt, now, InstanceJob(id));
    assert [InstanceJob(id)][..0] == [];
    assert DueAmong([], lastRunAt, now) == [];
  }

  lemma PlaceOfInstance(id: JobId, environments: seq<Environment>, lastRunAt: map<string, int>, now: int)
    requires InstanceWide(id)
    ensures var job := InstanceJob(id);
      if Waited(lastRunAt, now, job) then ListsDue([job], [Place(0, 0)], [id], environments, lastRunAt, now)
      else ListsDue([], [], [id], environments, lastRunAt, now)
  {
    hide Waited, JobAt;
    JobOfInstance(id, environments);
    if Waited(lastRunAt, now, InstanceJob(id)) {
      assert DueAt([id], environments, lastRunAt, now, Place(0, 0));
    }
  }

  lemma JobOfInstance(id: JobId, environments: seq<Environment>)
    requires InstanceWide(id)
    ensures JobAt([id], environments, 0, 0) == Some(InstanceJob(id))
    ensures forall p: nat, q: nat :: JobAt([id], environments, p, q).Some? ==> p == 0 && q == 0
  {}

  lemma PlacesOfOne(id: JobId, environments: seq<Environment>, lastRunAt: map<string, int>, now: int)
      returns (places: seq<Place>)
    ensures ListsDue(DueAmong(Targets(id, environments), lastRunAt, now), places, [id], environments, lastRunAt, now)
  {
    hide ListsDue, DueAmong;
    if InstanceWide(id) {
      DueOfInstance(id, lastRunAt, now);
      PlaceOfInstance(id, environments, lastRunAt, now);
      places := if Waited(lastRunAt, now, InstanceJob(id)) then [Place(0, 0)] else [];
    } else {
      places := PlacesOfEnvironments(id, environments, lastRunAt, now);
    }
  }

  function Moved(places: seq<Place>, p: nat): (r: seq<Place>)
    ensures |r| == |places| && forall i :: 0 <= i < |r| ==> r[i] == Place(p + places[i].at, places[i].under)
  {
    seq(|places|, i requires 0 <= i < |places| => Place(p + places[i].at, places[i].under))
  }

  lemma JobOfOneIdMore(before: seq<JobId>, last: JobId, environments: seq<Environment>)
    ensures forall p: nat, q: nat :: p < |before| ==>
      JobAt(before + [last], environments, p, q) == JobAt(before, environments, p, q)
    ensures forall q: nat :: JobAt(before + [last], environments, |before|, q) == JobAt([last], environments, 0, q)
    ensures forall p: nat, q: nat :: JobAt(before, environments, p, q).Some? ==> p < |before|
    ensures forall p: nat, q: nat :: JobAt(before + [last], environments, p, q).Some? ==> p <= |before|
    ensures forall p: nat, q: nat :: JobAt([last], environments, p, q).Some? ==> p == 0
  {}

  lemma FitsTogether(
      a: seq<DueJob>, aPlaces: seq<Place>, b: seq<DueJob>, bPlaces: seq<Place>,
      before: seq<JobId>, last: JobId, environments: seq<Environment>, lastRunAt: map<string, int>, now: int)
    requires Fits(a, aPlaces, before, environments, lastRunAt, now) && Fits(b, bPlaces, [last], environments, lastRunAt, now)
    ensures Fits(a + b, aPlaces + Moved(bPlaces, |before|), before + [last], environments, lastRunAt, now)
    ensures forall i :: 0 <= i < |aPlaces| ==> aPlaces[i].at < |before|
    ensures forall i :: 0 <= i < |bPlaces| ==> bPlaces[i].at == 0
  {
    hide JobAt, Waited;
    JobOfOneIdMore(before, last, environments);
  }

  lemma AscendingTogether(a: seq<Place>, b: seq<Place>, n: nat)
    requires Ascending(a) && Ascending(b)
    requires (forall i :: 0 <= i < |a| ==> a[i].at < n) && forall i :: 0 <= i < |b| ==> b[i].at == 0
    ensures Ascending(a + Moved(b, n))
  {}

  lemma CompleteTogether(
      a: seq<Place>, b: seq<Place>,
      before: seq<JobId>, last: JobId, environments: seq<Environment>, lastRunAt: map<string, int>, now: int)
    requires Complete(a, before, environments, lastRunAt, now) && Complete(b, [last], environments, lastRunAt, now)
    ensures Complete(a + Moved(b, |before|), before + [last], environments, lastRunAt, now)
  {
    hide JobAt, Waited;
    JobOfOneIdMore(before, last, environments);
    var n := |before|;
    forall place: Place | DueAt(before + [last], environments, lastRunAt, now, place) ensures place in a + Moved(b, n) {
      if place.at < n {
        assert DueAt(before, environments, lastRunAt, now, place);
      } else {
        assert DueAt([last], environments, lastRunAt, now, Place(0, place.under));
        var i :| 0 <= i < |b| && b[i] == Place(0, place.under);
        assert Moved(b, n)[i] == place;
      }
    }
  }

  /** The due jobs, in order: each due place once, by enabled id and under each id by environment. */
  lemma {:induction false} DueInOrder(
      enabled: seq<JobId>, environments: seq<Environment>, lastRunAt: map<string, int>, now: int) returns (places: seq<Place>)
    ensures ListsDue(Due(enabled, environments, lastRunAt, now), places, enabled, environments, lastRunAt, now)
  {
    if enabled == [] {
      places := [];
    } else {
      var before, last := enabled[..|enabled| - 1], enabled[|enabled| - 1];
      places := DueInOrder(before, environments, lastRunAt, now);
      var own := PlacesOfOne(last, environments, lastRunAt, now);
      hide Ascending, Fits, Complete, DueAmong;
      var a, b := Due(before, environments, lastRunAt, now), DueAmong(Targets(last, environments), lastRunAt, now);
      FitsTogether(a, places, b, own, before, last, environments, lastRunAt, now);
      AscendingTogether(places, own, |before|);
      CompleteTogether(places, own, before, last, environments, lastRunAt, now);
      AllButLast(enabled);
      places := places + Moved(own, |before|);
    }
  }

  lemma NameIsPlain(a: JobId)
    ensures NUL !in Name(a)
  {}

  /** The job a name stands for, told by its first two letters and its length. */
  function Named(name: string): JobId
    requires |name| >= 2
  {
    if name[0] == 'm' then Metrics
    else if name[0] == 'e' then Errors
    else if name[0] == 's' then Synthetics
    else if name[0] == 'b' then Baselines
    else if name[0] == 'n' then Notify
    else if name[0] == 'i' then Ingest
    else if name[0] == 'c' then (if name[1] == 'l' then Cloudflare else Compact)
    else if name[1] == 'i' then Digest
    else if |name| == 6 then Detect else Deployments
  }

  lemma NameIsRead(a: JobId)
    ensures |Name(a)| >= 2 && Named(Name(a)) == a
  {}

  lemma NamesDiffer(a: JobId, b: JobId)
    ensures NUL !in Name(a)
    ensures Name(a) == Name(b) ==> a == b
  {
    hide Name, Named;
    NameIsPlain(a);
    NameIsRead(a);
    NameIsRead(b);
  }

  lemma KeyKind(job: DueJob)
    ensures NUL in JobKey(job) <==> job.EnvironmentJob?
  {
    NamesDiffer(job.id, job.id);
    if job.EnvironmentJob? {
      assert JobKey(job)[|Name(job.id)|] == NUL;
    }
  }

  /** Jobs whose connection ids hold no NUL are remembered apart. */
  lemma KeysAreInjective(a: DueJob, b: DueJob)
    requires NulFree(a) && NulFree(b) && JobKey(a) == JobKey(b)
    ensures a == b
  {
    NamesDiffer(a.id, b.id);
    NamesDiffer(b.id, a.id);
    KeyKind(a);
    KeyKind(b);
    if a.EnvironmentJob? && b.EnvironmentJob? {
      JoinIsInjective(Name(a.id), a.connectionId, a.scope, Name(b.id), b.connectionId, b.scope);
    }
  }

  predicate Plain(job: DueJob) {
    job.EnvironmentJob? ==> '\0' !in job.connectionId && '\0' !in job.scope
  }

  /** A job has its key to itself, whatever other jobs there may be, exactly when neither of its ids holds a NUL. */
  lemma KeyIsOwnIffPlain(a: DueJob)
    ensures (forall b :: JobKey(b) == JobKey(a) ==> b == a) <==> Plain(a)
  {
    if Plain(a) {
      forall b | JobKey(b) == JobKey(a) ensures b == a {
        PlainKeyIsOwn(a, b);
      }
    } else {
      var b := SharesKey(a);
      assert b != a;
    }
  }

  lemma PlainKeyIsOwn(a: DueJob, b: DueJob)
    requires Plain(a) && JobKey(b) == JobKey(a)
    ensures b == a
  {
    KeyKind(a);
    KeyKind(b);
    if a.EnvironmentJob? {
      NamesDiffer(a.id, b.id);
      ThreePiecesIffPlain(Name(a.id), a.connectionId, a.scope);
      ThreePiecesIffPlain(Name(b.id), b.connectionId, b.scope);
    }
    KeysAreInjective(a, b);
  }

  /** Another job with the key of one that holds a NUL: the NUL moves from one id into the other. */
  lemma SharesKey(a: DueJob) returns (b: DueJob)
    requires !Plain(a)
    ensures JobKey(b) == JobKey(a) && b != a
  {
    var c, s := a.connectionId, a.scope;
    if NUL in c {
      var p, q := AroundNul(c);
      b := EnvironmentJob(a.id, p, q + [NUL] + s);
      NulMoves(Name(a.id), p, q, s);
    } else {
      var p, q := AroundNul(s);
      b := EnvironmentJob(a.id, c + [NUL] + p, q);
      NulMoves(Name(a.id), c, p, q);
    }
  }

  /** Without that, two environments can share a key: one NUL moved from the scope into the connection. */
  lemma NulMakesKeysCollide()
    ensures var a := EnvironmentJob(Detect, "c\0d", "s");
      var b := EnvironmentJob(Detect, "c", "d\0s");
      a != b && JobKey(a) == JobKey(b)
  {
    assert "c\0d" == "c" + [NUL] + "d" && "d\0s" == "d" + [NUL] + "s";
    var a := EnvironmentJob(Detect, "c" + [NUL] + "d", "s");
    var b := EnvironmentJob(Detect, "c", "d" + [NUL] + "s");
    assert |a.connectionId| == 3 && |b.connectionId| == 1;
    assert JobKey(a) == Name(Detect) + [NUL] + "c" + [NUL] + "d" + [NUL] + "s";
  }
}
