/** Draining the forwarders' queue: grouped by a joined key, split back, and every event ingested once. */
module IngestJob {
  import opened Collections
  import opened Wrappers
  import opened Keys
  import opened Grouping
  import opened ErrorsIngest

  datatype Event = Event(
    seqNo: nat, connectionId: string, region: string, logGroup: string, logStream: string, message: string, at: int)

  /** One call of `ingest`: the names it was given, and the events whose rows it was given. */
  datatype Delivery = Delivery(connectionId: string, region: string, logGroup: string, events: seq<Event>)

  datatype Outcome = Outcome(covered: nat, total: nat, truncated: bool)

  const INGEST_BATCH := 500

  /** The store's answer to which log source reads a group; it makes one when there is none. */
  type SourceFor = (string, string, string) -> LogSource

  function KeyOf(e: Event): string { Join3(e.connectionId, e.region, e.logGroup) }

  function RowOf(e: Event): LogRow {
    LogRow(Some(e.message), Some(e.at))
  }

  function RowsOf(events: seq<Event>): (r: seq<LogRow>)
    ensures |r| == |events| && forall i :: 0 <= i < |r| ==> r[i] == RowOf(events[i])
  {
    seq(|events|, i requires 0 <= i < |events| => RowOf(events[i]))
  }

  /** A group's key taken apart again. */
  function DeliveryOf(key: string, events: seq<Event>): Delivery {
    var pieces := Split(key);
    if |pieces| >= 3 then Delivery(pieces[0], pieces[1], pieces[2], events) else Delivery("", "", "", events)
  }

  function Deliveries(queued: seq<Event>, n: nat): (r: seq<Delivery>)
    requires n <= |Firsts(queued, KeyOf)|
    ensures |r| == n
    ensures forall k :: 0 <= k < n ==>
      r[k] == DeliveryOf(Firsts(queued, KeyOf)[k], Members(queued, KeyOf, Firsts(queued, KeyOf)[k]))
  {
    if n == 0 then []
    else
      var key := Firsts(queued, KeyOf)[n - 1];
      Deliveries(queued, n - 1) + [DeliveryOf(key, Members(queued, KeyOf, key))]
  }

  function Delivered(queued: seq<Event>): seq<Delivery> {
    Deliveries(queued, |Firsts(queued, KeyOf)|)
  }

  function RecordedBy(d: Delivery, nowMs: int, sourceFor: SourceFor, rules: Rules): seq<Record> {
    Recorded(Job(d.connectionId, d.region, nowMs), sourceFor(d.connectionId, d.region, d.logGroup), rules, RowsOf(d.events))
  }

  function AllRecorded(deliveries: seq<Delivery>, nowMs: int, sourceFor: SourceFor, rules: Rules): seq<Record> {
    if deliveries == [] then []
    else
      AllRecorded(deliveries[..|deliveries| - 1], nowMs, sourceFor, rules)
      + RecordedBy(deliveries[|deliveries| - 1], nowMs, sourceFor, rules)
  }

  function EnvironmentOf(d: Delivery): string { Join2(d.connectionId, d.region) }

  function PairOf(key: string): (string, string) {
    var pieces := Split(key);
    if |pieces| >= 2 then (pieces[0], pieces[1]) else ("", "")
  }

  function Pairs(keys: seq<string>): (r: seq<(string, string)>)
    ensures |r| == |keys| && forall i :: 0 <= i < |r| ==> r[i] == PairOf(keys[i])
  {
    seq(|keys|, i requires 0 <= i < |keys| => PairOf(keys[i]))
  }

  /** The environments the detector runs for. */
  function Detected(queued: seq<Event>): seq<(string, string)> {
    Pairs(Firsts(Delivered(queued), EnvironmentOf))
  }

  function SeqNos(events: seq<Event>): (r: seq<nat>)
    ensures |r| == |events| && forall i :: 0 <= i < |r| ==> r[i] == events[i].seqNo
  {
    seq(|events|, i requires 0 <= i < |events| => events[i].seqNo)
  }

  ghost predicate IsGrouped(order: seq<string>, byGroup: map<string, seq<Event>>, queued: seq<Event>) {
    && order == Firsts(queued, KeyOf)
    && (forall k :: k in byGroup <==> Members(queued, KeyOf, k) != [])
    && (forall k :: k in byGroup ==> byGroup[k] == Members(queued, KeyOf, k))
  }

  lemma GroupedStep(order: seq<string>, byGroup: map<string, seq<Event>>, queued: seq<Event>, e: Event)
    requires IsGrouped(order, byGroup, queued)
    ensures var key := KeyOf(e);
      var before := if key in byGroup then byGroup[key] else [];
      IsGrouped(if key in byGroup then order else order + [key], byGroup[key := before + [e]], queued + [e])
  {
    hide Firsts, Members, KeyOf;
    GroupsHoldTheirKey(queued, KeyOf, KeyOf(e));
    FirstsStep(queued, e, KeyOf);
    forall k ensures Members(queued + [e], KeyOf, k)
      == if KeyOf(e) == k then Members(queued, KeyOf, k) + [e] else Members(queued, KeyOf, k)
    {
      MembersStep(queued, e, KeyOf, k);
    }
  }

  method GroupQueue(queued: seq<Event>) returns (order: seq<string>, byGroup: map<string, seq<Event>>)
    ensures IsGrouped(order, byGroup, queued)
  {
    order, byGroup := [], map[];
    for i := 0 to |queued|
      invariant IsGrouped(order, byGroup, queued[..i])
    {
      var event := queued[i];
      TakeOneMore(queued, i);
      GroupedStep(order, byGroup, queued[..i], event);
      var key := Join3(event.connectionId, event.region, event.logGroup);
      if key in byGroup {
        byGroup := byGroup[key := byGroup[key] + [event]];
      } else {
        order := order + [key];
        byGroup := byGroup[key := [] + [event]];
      }
    }
    assert queued[..|queued|] == queued;
  }

  /** What one pass asks of the store, in order within each kind: ingest calls, records, marks, detector runs. */
  method RunIngestJob(queued: seq<Event>, nowMs: int, sourceFor: SourceFor, rules: Rules)
    returns (deliveries: seq<Delivery>, recorded: seq<Record>, processed: seq<nat>, detected: seq<(string, string)>,
      outcome: Outcome)
    ensures deliveries == Delivered(queued)
    ensures recorded == AllRecorded(deliveries, nowMs, sourceFor, rules)
    ensures |processed| == |queued| && forall i :: 0 <= i < |queued| ==> processed[i] == queued[i].seqNo
    ensures detected == Detected(queued)
    ensures outcome == Outcome(|queued|, |queued|, |queued| == 500)
  {
    deliveries, recorded, processed, detected := [], [], [], [];
    if |queued| > 0 {
      var order, byGroup := GroupQueue(queued);
      var environments: seq<string> := [];
      for n := 0 to |order|
        invariant deliveries == Deliveries(queued, n)
        invariant recorded == AllRecorded(deliveries, nowMs, sourceFor, rules)
        invariant environments == Firsts(deliveries, EnvironmentOf)
      {
        GroupsHoldTheirKey(queued, KeyOf, order[n]);
        var d := DeliveryOf(order[n], byGroup[order[n]]);
        var source := sourceFor(d.connectionId, d.region, d.logGroup);
        var batch, _ := Ingest(Job(d.connectionId, d.region, nowMs), source, rules, RowsOf(d.events));
        recorded := recorded + batch;
        assert (deliveries + [d])[..|deliveries|] == deliveries;
        deliveries := deliveries + [d];
        var environment := Join2(d.connectionId, d.region);
        if environment !in environments {
          environments := environments + [environment];
        }
      }
      processed := SeqNos(queued);
      detected := Pairs(environments);
    }
    outcome := Outcome(|queued|, |queued|, |queued| == INGEST_BATCH);
  }

  // ---- Every event once ----

  function EventsOf(deliveries: seq<Delivery>): seq<Event> {
    if deliveries == [] then [] else EventsOf(deliveries[..|deliveries| - 1]) + deliveries[|deliveries| - 1].events
  }

  lemma {:induction false} EventsAreFlattened(queued: seq<Event>, n: nat)
    requires n <= |Firsts(queued, KeyOf)|
    ensures EventsOf(Deliveries(queued, n)) == Flattened(queued, KeyOf, Firsts(queued, KeyOf), n)
  {
    hide Firsts, Members, KeyOf, Split;
    if n > 0 {
      EventsAreFlattened(queued, n - 1);
      var key := Firsts(queued, KeyOf)[n - 1];
      EventsOfOneMore(Deliveries(queued, n - 1), DeliveryOf(key, Members(queued, KeyOf, key)));
    }
  }

  lemma EventsOfOneMore(deliveries: seq<Delivery>, d: Delivery)
    ensures EventsOf(deliveries + [d]) == EventsOf(deliveries) + d.events
  {
    assert (deliveries + [d])[..|deliveries|] == deliveries;
  }

  /** The events delivered are exactly the events queued, each as often as it was queued. */
  lemma EveryEventReachesIngestOnce(queued: seq<Event>)
    ensures multiset(EventsOf(Delivered(queued))) == multiset(queued)
  {
    EventsAreFlattened(queued, |Firsts(queued, KeyOf)|);
    GroupsPartition(queued, KeyOf);
  }

  // ---- Under its own names ----

  predicate NulFree(e: Event) {
    '\0' !in e.connectionId && '\0' !in e.region && '\0' !in e.logGroup
  }

  predicate Names(d: Delivery, e: Event) {
    d.connectionId == e.connectionId && d.region == e.region && d.logGroup == e.logGroup
  }

  lemma NamesOfMember(queued: seq<Event>, k: nat, e: Event)
    requires k < |Firsts(queued, KeyOf)| && e in Delivered(queued)[k].events
    ensures Names(Delivered(queued)[k], e) <==> NulFree(e)
    ensures e in queued && KeyOf(e) == Firsts(queued, KeyOf)[k]
  {
    GroupsHoldTheirKey(queued, KeyOf, Firsts(queued, KeyOf)[k]);
    PiecesAreParts(e.connectionId, e.region, e.logGroup);
    var pieces := Split(KeyOf(e));
    assert pieces[..3] == [pieces[0], pieces[1], pieces[2]];
  }

  lemma MemberIsDelivered(queued: seq<Event>, e: Event) returns (k: nat)
    requires e in queued
    ensures k < |Firsts(queued, KeyOf)| && Firsts(queued, KeyOf)[k] == KeyOf(e)
    ensures e in Delivered(queued)[k].events
  {
    GroupsHoldTheirKey(queued, KeyOf, KeyOf(e));
    k :| 0 <= k < |Firsts(queued, KeyOf)| && Firsts(queued, KeyOf)[k] == KeyOf(e);
  }

  ghost predicate UnderOwnNames(queued: seq<Event>, k: nat) {
    k < |Delivered(queued)| && forall e :: e in Delivered(queued)[k].events ==> Names(Delivered(queued)[k], e)
  }

  /** Every event is ingested under its own connection, region and group exactly when no queued name holds a NUL. */
  lemma OwnNamesIffNulFree(queued: seq<Event>)
    ensures (forall k: nat :: k < |Delivered(queued)| ==> UnderOwnNames(queued, k))
       <==> (forall e :: e in queued ==> NulFree(e))
  {
    if forall e :: e in queued ==> NulFree(e) {
      forall k: nat, e | k < |Delivered(queued)| && e in Delivered(queued)[k].events ensures Names(Delivered(queued)[k], e) {
        NamesOfMember(queued, k, e);
      }
    }
    if forall k: nat :: k < |Delivered(queued)| ==> UnderOwnNames(queued, k) {
      forall e | e in queued ensures NulFree(e) {
        var k := MemberIsDelivered(queued, e);
        NamesOfMember(queued, k, e);
        assert UnderOwnNames(queued, k);
      }
    }
  }

  function Named(queued: seq<Event>, connectionId: string, region: string, logGroup: string): seq<Event> {
    if queued == [] then []
    else
      var last := queued[|queued| - 1];
      var before := Named(queued[..|queued| - 1], connectionId, region, logGroup);
      if Names(Delivery(connectionId, region, logGroup, []), last) then before + [last] else before
  }

  lemma {:induction false} MembersAreNamed(queued: seq<Event>, connectionId: string, region: string, logGroup: string)
    requires forall e :: e in queued ==> NulFree(e)
    requires NUL !in connectionId && NUL !in region
    ensures Members(queued, KeyOf, Join3(connectionId, region, logGroup)) == Named(queued, connectionId, region, logGroup)
  {
    if queued != [] {
      var before, last := queued[..|queued| - 1], queued[|queued| - 1];
      assert queued == before + [last] && last in queued;
      MembersAreNamed(before, connectionId, region, logGroup);
      if KeyOf(last) == Join3(connectionId, region, logGroup) {
        JoinIsInjective(last.connectionId, last.region, last.logGroup, connectionId, region, logGroup);
      }
    }
  }

  lemma NamesOfDelivery(queued: seq<Event>, k: nat)
    requires k < |Delivered(queued)| && forall e :: e in queued ==> NulFree(e)
    ensures var d := Delivered(queued)[k];
      && Firsts(queued, KeyOf)[k] == Join3(d.connectionId, d.region, d.logGroup)
      && NUL !in d.connectionId && NUL !in d.region && NUL !in d.logGroup && d.events != []
  {
    var key := Firsts(queued, KeyOf)[k];
    GroupsHoldTheirKey(queued, KeyOf, key);
    var e := Members(queued, KeyOf, key)[0];
    assert e in Members(queued, KeyOf, key);
    NamesOfMember(queued, k, e);
  }

  /** Of names without NUL, each group of the queue is one call: all its events and no others, in queue order. */
  lemma GroupsInQueueOrder(queued: seq<Event>, k: nat)
    requires k < |Delivered(queued)| && forall e :: e in queued ==> NulFree(e)
    ensures var d := Delivered(queued)[k];
      && d.events == Named(queued, d.connectionId, d.region, d.logGroup) != []
      && forall l :: 0 <= l < |Delivered(queued)| && l != k ==>
        (Delivered(queued)[l].connectionId, Delivered(queued)[l].region, Delivered(queued)[l].logGroup)
          != (d.connectionId, d.region, d.logGroup)
  {
    var d := Delivered(queued)[k];
    NamesOfDelivery(queued, k);
    MembersAreNamed(queued, d.connectionId, d.region, d.logGroup);
    FirstsAreDistinct(queued, KeyOf);
    forall l | 0 <= l < |Delivered(queued)| && l != k
      ensures (Delivered(queued)[l].connectionId, Delivered(queued)[l].region, Delivered(queued)[l].logGroup)
        != (d.connectionId, d.region, d.logGroup)
    {
      NamesOfDelivery(queued, l);
    }
  }

  // ---- Counts ----

  lemma {:induction false} TotalCountAppend(a: seq<Record>, b: seq<Record>)
    ensures TotalCount(a + b) == TotalCount(a) + TotalCount(b)
  {
    if b == [] {
      assert a + b == a;
    } else {
      var n := |b| - 1;
      TotalCountAppend(a, b[..n]);
      assert (a + b)[..|a + b| - 1] == a + b[..n];
    }
  }

  lemma {:induction false} AllHaveMessages(events: seq<Event>)
    ensures WithMessage(RowsOf(events)) == |events|
  {
    if events != [] {
      AllHaveMessages(events[..|events| - 1]);
      assert RowsOf(events)[..|events| - 1] == RowsOf(events[..|events| - 1]);
    }
  }

  lemma {:induction false} CountsAreEvents(deliveries: seq<Delivery>, nowMs: int, sourceFor: SourceFor, rules: Rules)
    ensures TotalCount(AllRecorded(deliveries, nowMs, sourceFor, rules)) == |EventsOf(deliveries)|
  {
    if deliveries != [] {
      var before, d := deliveries[..|deliveries| - 1], deliveries[|deliveries| - 1];
      CountsAreEvents(before, nowMs, sourceFor, rules);
      TotalCountAppend(AllRecorded(before, nowMs, sourceFor, rules), RecordedBy(d, nowMs, sourceFor, rules));
      CountsAreConserved(Job(d.connectionId, d.region, nowMs), sourceFor(d.connectionId, d.region, d.logGroup), rules,
        RowsOf(d.events));
      AllHaveMessages(d.events);
    }
  }

  /** The counts recorded over a pass sum to the number of events it drained, whatever the names and the parser. */
  lemma DrainedIsRecorded(queued: seq<Event>, nowMs: int, sourceFor: SourceFor, rules: Rules)
    ensures TotalCount(AllRecorded(Delivered(queued), nowMs, sourceFor, rules)) == |queued|
  {
    CountsAreEvents(Delivered(queued), nowMs, sourceFor, rules);
    EveryEventReachesIngestOnce(queued);
    assert |multiset(EventsOf(Delivered(queued)))| == |multiset(queued)|;
  }

  // ---- What the records of a delivery say ----

  /** The time an event counts at: its own, unless it is stamped 0. */
  function TimeOf(e: Event, nowMs: int): int {
    if e.at != 0 then e.at else nowMs
  }

  /** The events of a delivery whose line has the fingerprint. */
  function Marked(events: seq<Event>, source: LogSource, rules: Rules, mark: string): set<int> {
    set i | 0 <= i < |events| && PrintOf(source, rules, events[i].message) == mark
  }

  /**
   * A record of a delivery bears its names, and stands for the events whose line has its fingerprint: it counts them,
   * its time is the latest of theirs, an event stamped 0 counting as of now, and the line of the first of them gives
   * its exception and its sample.
   */
  lemma RecordsOfDelivery(d: Delivery, nowMs: int, sourceFor: SourceFor, rules: Rules, k: nat)
    requires k < |RecordedBy(d, nowMs, sourceFor, rules)|
    ensures var record, source := RecordedBy(d, nowMs, sourceFor, rules)[k], sourceFor(d.connectionId, d.region, d.logGroup);
      var marked := Marked(d.events, source, rules, record.fingerprint);
      && record.connectionId == d.connectionId && record.scope == d.region
      && record.logSourceId == source.id && record.serviceId == source.serviceId
      && record.count == |marked| > 0
      && (forall i :: i in marked ==> TimeOf(d.events[i], nowMs) <= record.at)
      && (exists i :: i in marked && TimeOf(d.events[i], nowMs) == record.at)
      && (forall i :: i in marked && (forall j :: j in marked ==> i <= j) ==>
            SampledFrom(record, source, rules, Some(d.events[i].message)))
  {
    hide Recorded, SeenRows, PrintOf, SampledFrom, BearsFirst, BearerSet;
    var job, source := Job(d.connectionId, d.region, nowMs), sourceFor(d.connectionId, d.region, d.logGroup);
    var rows, record := RowsOf(d.events), RecordedBy(d, nowMs, sourceFor, rules)[k];
    RecordsStandForRows(job, source, rules, rows, k);
    forall i | 0 <= i < |d.events| ensures HappenedAt(rows[i], nowMs) == TimeOf(d.events[i], nowMs)
      ensures rows[i].message == Some(d.events[i].message) {}
    MarkedAreBearers(d.events, source, rules, record.fingerprint);
    var marked := Marked(d.events, source, rules, record.fingerprint);
    forall i | i in marked && (forall j :: j in marked ==> i <= j) ensures SampledFrom(record, source, rules, rows[i].message) {
      MarkedFirst(d.events, source, rules, record.fingerprint, i);
    }
  }

  lemma MarkedAreBearers(events: seq<Event>, source: LogSource, rules: Rules, mark: string)
    ensures BearerSet(source, rules, RowsOf(events), mark) == Marked(events, source, rules, mark)
    ensures forall i :: 0 <= i < |events| ==>
      (Bears(source, rules, RowsOf(events)[i], mark) <==> i in Marked(events, source, rules, mark))
  {
    hide PrintOf;
  }

  lemma MarkedFirst(events: seq<Event>, source: LogSource, rules: Rules, mark: string, i: int)
    requires i in Marked(events, source, rules, mark) && forall j :: j in Marked(events, source, rules, mark) ==> i <= j
    ensures BearsFirst(source, rules, RowsOf(events), i, mark)
  {
    hide Bears;
    MarkedAreBearers(events, source, rules, mark);
  }

  // ---- Detector runs ----

  function Environment(d: Delivery): (string, string) {
    (d.connectionId, d.region)
  }

  lemma EnvironmentsComeBack(queued: seq<Event>, k: nat)
    requires k < |Delivered(queued)|
    ensures var d := Delivered(queued)[k];
      && PairOf(EnvironmentOf(d)) == Environment(d)
      && NUL !in d.connectionId && NUL !in d.region
  {
    var d := Delivered(queued)[k];
    SplitPair(d.connectionId, d.region);
  }

  lemma DetectedAre(queued: seq<Event>, k: nat)
    requires k < |Detected(queued)|
    ensures exists j: nat ::
      && j < |Delivered(queued)|
      && Environment(Delivered(queued)[j]) == Detected(queued)[k]
      && EnvironmentOf(Delivered(queued)[j]) == Firsts(Delivered(queued), EnvironmentOf)[k]
  {
    var deliveries := Delivered(queued);
    var key := Firsts(deliveries, EnvironmentOf)[k];
    GroupsHoldTheirKey(deliveries, EnvironmentOf, key);
    var d := Members(deliveries, EnvironmentOf, key)[0];
    assert d in Members(deliveries, EnvironmentOf, key);
    var j: nat :| j < |deliveries| && deliveries[j] == d;
    EnvironmentsComeBack(queued, j);
  }

  /** The detector runs once for each environment something was ingested into, and for no other. */
  lemma DetectorRunsOnceEach(queued: seq<Event>)
    ensures Distinct(Detected(queued))
    ensures forall pair :: pair in Detected(queued) <==>
      exists j: nat :: j < |Delivered(queued)| && Environment(Delivered(queued)[j]) == pair
  {
    var deliveries := Delivered(queued);
    FirstsAreDistinct(deliveries, EnvironmentOf);
    forall i, k | 0 <= i < k < |Detected(queued)| ensures Detected(queued)[i] != Detected(queued)[k] {
      DetectedAre(queued, i);
      DetectedAre(queued, k);
    }
    forall k: nat | k < |Detected(queued)|
      ensures exists j: nat :: j < |Delivered(queued)| && Environment(Delivered(queued)[j]) == Detected(queued)[k]
    {
      DetectedAre(queued, k);
    }
    forall j: nat | j < |deliveries| ensures Environment(deliveries[j]) in Detected(queued) {
      EnvironmentsComeBack(queued, j);
      GroupsHoldTheirKey(deliveries, EnvironmentOf, EnvironmentOf(deliveries[j]));
      assert deliveries[j] in Members(deliveries, EnvironmentOf, EnvironmentOf(deliveries[j]));
      var keys := Firsts(deliveries, EnvironmentOf);
      var k :| 0 <= k < |keys| && keys[k] == EnvironmentOf(deliveries[j]);
      assert Detected(queued)[k] == Environment(deliveries[j]);
    }
  }
}
