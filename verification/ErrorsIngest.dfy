/** Batching log rows by fingerprint: one record for each, which accounts for every row that has a message. */
module ErrorsIngest {
  import opened Collections
  import opened Wrappers
  import opened Grouping

  /** A fetched or forwarded row. The stamp is what its time text reads as, absent when it reads as no number. */
  datatype LogRow = LogRow(message: Option<string>, stamp: Option<int>)

  datatype LogSource = LogSource(id: string, serviceId: Option<string>, logGroup: string)
  datatype Parsed = Parsed(exceptionType: Option<string>, message: Option<string>, stack: Option<string>)

  /** The parser and the fingerprint, which this model takes as given functions. */
  datatype Rules = Rules(parse: (LogSource, string) -> Parsed, fingerprint: (Parsed, string, string) -> string)

  datatype Job = Job(connectionId: string, scope: string, nowMs: int)

  datatype Record = Record(
    connectionId: string, scope: string, logSourceId: string, serviceId: Option<string>, fingerprint: string,
    exceptionType: Option<string>, sampleMessage: string, at: int, count: nat)

  const SAMPLE_LENGTH := 1000

  function Clip(message: string): string {
    if |message| <= SAMPLE_LENGTH then message else message[..SAMPLE_LENGTH]
  }

  /** What one row with a message amounts to on its own. */
  datatype Seen = Seen(fingerprint: string, exceptionType: Option<string>, sampleMessage: string, at: int)

  /** A stamp of zero counts as none, as a text that is no number does. */
  function AtOf(row: LogRow, nowMs: int): int {
    if row.stamp.Some? && row.stamp.value != 0 then row.stamp.value else nowMs
  }

  function SeenOf(job: Job, source: LogSource, rules: Rules, row: LogRow): Seen
    requires row.message.Some?
  {
    var raw := row.message.value;
    var parsed := rules.parse(source, raw);
    var message := if parsed.message.Some? then parsed.message.value else raw;
    Seen(rules.fingerprint(parsed, message, source.logGroup), parsed.exceptionType, Clip(message), AtOf(row, job.nowMs))
  }

  /** The rows that have a message, in order. */
  function SeenRows(job: Job, source: LogSource, rules: Rules, rows: seq<LogRow>): seq<Seen> {
    if rows == [] then []
    else
      var last := rows[|rows| - 1];
      var before := SeenRows(job, source, rules, rows[..|rows| - 1]);
      if last.message.Some? then before + [SeenOf(job, source, rules, last)] else before
  }

  function WithMessage(rows: seq<LogRow>): nat {
    if rows == [] then 0 else WithMessage(rows[..|rows| - 1]) + (if rows[|rows| - 1].message.Some? then 1 else 0)
  }

  function FingerprintOf(s: Seen): string { s.fingerprint }

  function Latest(group: seq<Seen>): int
    requires group != []
  {
    var n := |group| - 1;
    if n == 0 then group[0].at else if Latest(group[..n]) > group[n].at then Latest(group[..n]) else group[n].at
  }

  function RecordOf(job: Job, source: LogSource, group: seq<Seen>): Record
    requires group != []
  {
    Record(job.connectionId, job.scope, source.id, source.serviceId, group[0].fingerprint,
      group[0].exceptionType, group[0].sampleMessage, Latest(group), |group|)
  }

  lemma RecordGrows(job: Job, source: LogSource, group: seq<Seen>, s: Seen)
    requires group != []
    ensures var r := RecordOf(job, source, group);
      RecordOf(job, source, group + [s]) == r.(at := if r.at > s.at then r.at else s.at, count := r.count + 1)
  {
    assert (group + [s])[..|group|] == group;
  }

  /** The batch after some rows: a record for every fingerprint seen, made from the rows that have it. */
  ghost predicate IsBatch(job: Job, source: LogSource, order: seq<string>, batch: map<string, Record>, seen: seq<Seen>) {
    && order == Firsts(seen, FingerprintOf)
    && (forall p :: p in batch <==> Members(seen, FingerprintOf, p) != [])
    && (forall p :: p in batch ==> batch[p] == RecordOf(job, source, Members(seen, FingerprintOf, p)))
  }

  /** The records of the first n groups. */
  function Records(job: Job, source: LogSource, groups: seq<seq<Seen>>, n: nat): (r: seq<Record>)
    requires n <= |groups| && forall k :: 0 <= k < |groups| ==> groups[k] != []
    ensures |r| == n && forall k :: 0 <= k < n ==> r[k] == RecordOf(job, source, groups[k])
  {
    if n == 0 then [] else Records(job, source, groups, n - 1) + [RecordOf(job, source, groups[n - 1])]
  }

  /** The records one call makes, in the order it makes them. */
  function Recorded(job: Job, source: LogSource, rules: Rules, rows: seq<LogRow>): seq<Record> {
    var seen := SeenRows(job, source, rules, rows);
    GroupsAreInhabited(seen, FingerprintOf);
    Records(job, source, Groups(seen, FingerprintOf), |Groups(seen, FingerprintOf)|)
  }

  lemma BatchGrows(job: Job, source: LogSource, order: seq<string>, batch: map<string, Record>, seen: seq<Seen>, s: Seen)
    requires IsBatch(job, source, order, batch, seen) && s.fingerprint in batch
    ensures var r := batch[s.fingerprint];
      var grown := r.(at := if r.at > s.at then r.at else s.at, count := r.count + 1);
      IsBatch(job, source, order, batch[s.fingerprint := grown], seen + [s])
  {
    hide RecordOf, Firsts, Members;
    GroupsHoldTheirKey(seen, FingerprintOf, s.fingerprint);
    FirstsStep(seen, s, FingerprintOf);
    forall p ensures p != s.fingerprint ==> Members(seen + [s], FingerprintOf, p) == Members(seen, FingerprintOf, p) {
      MembersStep(seen, s, FingerprintOf, p);
    }
    MembersStep(seen, s, FingerprintOf, s.fingerprint);
    RecordGrows(job, source, Members(seen, FingerprintOf, s.fingerprint), s);
  }

  lemma BatchBegins(job: Job, source: LogSource, order: seq<string>, batch: map<string, Record>, seen: seq<Seen>, s: Seen)
    requires IsBatch(job, source, order, batch, seen) && s.fingerprint !in batch
    ensures IsBatch(job, source, order + [s.fingerprint], batch[s.fingerprint := RecordOf(job, source, [s])], seen + [s])
  {
    hide Firsts;
    GroupsHoldTheirKey(seen, FingerprintOf, s.fingerprint);
    FirstsStep(seen, s, FingerprintOf);
    forall p ensures p != s.fingerprint ==> Members(seen + [s], FingerprintOf, p) == Members(seen, FingerprintOf, p) {
      MembersStep(seen, s, FingerprintOf, p);
    }
    MembersStep(seen, s, FingerprintOf, s.fingerprint);
    assert [] + [s] == [s];
  }

  /** The calls of the store's `recordError`, in order, are the result `recorded`. */
  method Ingest(job: Job, source: LogSource, rules: Rules, rows: seq<LogRow>) returns (recorded: seq<Record>, size: nat)
    ensures recorded == Recorded(job, source, rules, rows) && size == |recorded|
  {
    var order: seq<string>, batch: map<string, Record> := [], map[];
    for i := 0 to |rows|
      invariant IsBatch(job, source, order, batch, SeenRows(job, source, rules, rows[..i]))
    {
      var row := rows[i];
      ghost var before := SeenRows(job, source, rules, rows[..i]);
      assert rows[..i + 1][..i] == rows[..i];
      if row.message.Some? {
        var s := SeenOf(job, source, rules, row);
        if s.fingerprint in batch {
          BatchGrows(job, source, order, batch, before, s);
          var existing := batch[s.fingerprint];
          var at := if existing.at > s.at then existing.at else s.at;
          batch := batch[s.fingerprint := existing.(at := at, count := existing.count + 1)];
        } else {
          BatchBegins(job, source, order, batch, before, s);
          order := order + [s.fingerprint];
          batch := batch[s.fingerprint := Record(job.connectionId, job.scope, source.id, source.serviceId, s.fingerprint,
            s.exceptionType, s.sampleMessage, s.at, 1)];
        }
      }
    }
    assert rows[..|rows|] == rows;
    ghost var seen := SeenRows(job, source, rules, rows);
    GroupsAreInhabited(seen, FingerprintOf);
    recorded := [];
    for n := 0 to |order|
      invariant recorded == Records(job, source, Groups(seen, FingerprintOf), n)
    {
      GroupsHoldTheirKey(seen, FingerprintOf, order[n]);
      recorded := recorded + [batch[order[n]]];
    }
    size := |order|;
  }

  // ---- What the records promise ----

  function TotalCount(records: seq<Record>): nat {
    if records == [] then 0 else TotalCount(records[..|records| - 1]) + records[|records| - 1].count
  }

  lemma {:induction false} CountsAreSizes(job: Job, source: LogSource, seen: seq<Seen>, n: nat)
    requires n <= |Groups(seen, FingerprintOf)|
    requires forall k :: 0 <= k < |Groups(seen, FingerprintOf)| ==> Groups(seen, FingerprintOf)[k] != []
    ensures TotalCount(Records(job, source, Groups(seen, FingerprintOf), n))
         == |Flattened(seen, FingerprintOf, Firsts(seen, FingerprintOf), n)|
  {
    hide Firsts, Members;
    if n > 0 {
      CountsAreSizes(job, source, seen, n - 1);
      var groups := Groups(seen, FingerprintOf);
      TotalCountStep(Records(job, source, groups, n - 1), RecordOf(job, source, groups[n - 1]));
    }
  }

  lemma TotalCountStep(records: seq<Record>, last: Record)
    ensures TotalCount(records + [last]) == TotalCount(records) + last.count
  {
    assert (records + [last])[..|records|] == records;
  }

  lemma {:induction false} SeenCount(job: Job, source: LogSource, rules: Rules, rows: seq<LogRow>)
    ensures |SeenRows(job, source, rules, rows)| == WithMessage(rows)
  {
    if rows != [] {
      SeenCount(job, source, rules, rows[..|rows| - 1]);
    }
  }

  /** The counts of one call's records sum to the number of its rows that have a message. */
  lemma CountsAreConserved(job: Job, source: LogSource, rules: Rules, rows: seq<LogRow>)
    ensures TotalCount(Recorded(job, source, rules, rows)) == WithMessage(rows)
  {
    var seen := SeenRows(job, source, rules, rows);
    GroupsAreInhabited(seen, FingerprintOf);
    CountsAreSizes(job, source, seen, |Groups(seen, FingerprintOf)|);
    GroupsPartition(seen, FingerprintOf);
    assert |multiset(All(seen, FingerprintOf))| == |multiset(seen)|;
    SeenCount(job, source, rules, rows);
  }

  lemma {:induction false} LatestIsGreatest(group: seq<Seen>)
    requires group != []
    ensures forall s :: s in group ==> s.at <= Latest(group)
    ensures exists s :: s in group && s.at == Latest(group)
  {
    var n := |group| - 1;
    AllButLast(group);
    assert group[n] in group;
    if n > 0 {
      LatestIsGreatest(group[..n]);
    }
  }

  lemma GroupShares(seen: seq<Seen>, p: string)
    requires Members(seen, FingerprintOf, p) != []
    ensures Members(seen, FingerprintOf, p)[0].fingerprint == p
  {
    GroupsHoldTheirKey(seen, FingerprintOf, p);
    assert Members(seen, FingerprintOf, p)[0] in Members(seen, FingerprintOf, p);
  }

  predicate IsFirst(seen: seq<Seen>, i: nat) {
    i < |seen| && forall j :: 0 <= j < i ==> seen[j].fingerprint != seen[i].fingerprint
  }

  /** The record of a fingerprint counts its rows, carries the time of the latest of them, and samples the first. */
  ghost predicate Accounts(record: Record, seen: seq<Seen>) {
    && record.count == |Members(seen, FingerprintOf, record.fingerprint)| > 0
    && (forall s :: s in seen && s.fingerprint == record.fingerprint ==> s.at <= record.at)
    && (exists s :: s in seen && s.fingerprint == record.fingerprint && s.at == record.at)
    && (forall i: nat :: IsFirst(seen, i) && seen[i].fingerprint == record.fingerprint ==>
      record.exceptionType == seen[i].exceptionType && record.sampleMessage == seen[i].sampleMessage)
  }

  lemma RecordAccounts(job: Job, source: LogSource, seen: seq<Seen>, p: string)
    requires Members(seen, FingerprintOf, p) != []
    ensures RecordOf(job, source, Members(seen, FingerprintOf, p)).fingerprint == p
    ensures Accounts(RecordOf(job, source, Members(seen, FingerprintOf, p)), seen)
  {
    var group := Members(seen, FingerprintOf, p);
    GroupShares(seen, p);
    GroupsHoldTheirKey(seen, FingerprintOf, p);
    LatestIsGreatest(group);
    forall i: nat | IsFirst(seen, i) && seen[i].fingerprint == p ensures group[0] == seen[i] {
      GroupBeginsWithFirst(seen, FingerprintOf, i);
    }
  }

  predicate ComesFrom(record: Record, job: Job, source: LogSource) {
    && record.connectionId == job.connectionId && record.scope == job.scope
    && record.logSourceId == source.id && record.serviceId == source.serviceId
  }

  /**
   * One record for each fingerprint of a row with a message, in the order of their first rows, and no others; each
   * bears the connection, scope, log source and service of the call.
   */
  lemma OneRecordEach(job: Job, source: LogSource, rules: Rules, rows: seq<LogRow>)
    ensures var seen, recorded := SeenRows(job, source, rules, rows), Recorded(job, source, rules, rows);
      && |recorded| == |Firsts(seen, FingerprintOf)|
      && forall k :: 0 <= k < |recorded| ==>
        && recorded[k].fingerprint == Firsts(seen, FingerprintOf)[k]
        && Accounts(recorded[k], seen) && ComesFrom(recorded[k], job, source)
  {
    var seen := SeenRows(job, source, rules, rows);
    GroupsAreInhabited(seen, FingerprintOf);
    forall k | 0 <= k < |Groups(seen, FingerprintOf)|
      ensures var record := RecordOf(job, source, Groups(seen, FingerprintOf)[k]);
        record.fingerprint == Firsts(seen, FingerprintOf)[k] && Accounts(record, seen)
    {
      RecordAccounts(job, source, seen, Firsts(seen, FingerprintOf)[k]);
    }
  }

  /** No two records share a fingerprint, and every row with a message has its record. */
  lemma RecordsAreDistinct(job: Job, source: LogSource, rules: Rules, rows: seq<LogRow>)
    ensures var seen, recorded := SeenRows(job, source, rules, rows), Recorded(job, source, rules, rows);
      && (forall i, j :: 0 <= i < j < |recorded| ==> recorded[i].fingerprint != recorded[j].fingerprint)
      && (forall s :: s in seen ==> exists k :: 0 <= k < |recorded| && recorded[k].fingerprint == s.fingerprint)
  {
    hide Recorded, SeenRows, Firsts, Members, Accounts;
    var seen, recorded := SeenRows(job, source, rules, rows), Recorded(job, source, rules, rows);
    OneRecordEach(job, source, rules, rows);
    FirstsAreDistinct(seen, FingerprintOf);
    forall s | s in seen ensures exists k :: 0 <= k < |recorded| && recorded[k].fingerprint == s.fingerprint {
      GroupsHoldTheirKey(seen, FingerprintOf, s.fingerprint);
      assert s in Members(seen, FingerprintOf, s.fingerprint);
      var k :| 0 <= k < |Firsts(seen, FingerprintOf)| && Firsts(seen, FingerprintOf)[k] == s.fingerprint;
      assert recorded[k].fingerprint == s.fingerprint;
    }
  }

  // ---- The same, told by the rows ----

  /** What a line says: the message the parser finds in it, or the whole line where it finds none. */
  function SaidBy(source: LogSource, rules: Rules, line: string): string {
    var found := rules.parse(source, line).message;
    if found == None then line else found.value
  }

  function PrintOf(source: LogSource, rules: Rules, line: string): string {
    rules.fingerprint(rules.parse(source, line), SaidBy(source, rules, line), source.logGroup)
  }

  /** The row has a message, and that message this fingerprint. */
  predicate Bears(source: LogSource, rules: Rules, row: LogRow, mark: string) {
    row.message.Some? && PrintOf(source, rules, row.message.value) == mark
  }

  /** When a row happened: at its own stamp, unless it has none or it is zero. */
  function HappenedAt(row: LogRow, nowMs: int): int {
    match row.stamp
    case None => nowMs
    case Some(stamp) => if stamp == 0 then nowMs else stamp
  }

  /** No earlier row bears the fingerprint. */
  predicate BearsFirst(source: LogSource, rules: Rules, rows: seq<LogRow>, i: int, mark: string) {
    && 0 <= i < |rows| && Bears(source, rules, rows[i], mark)
    && forall j :: 0 <= j < i ==> !Bears(source, rules, rows[j], mark)
  }

  /** What is kept of a row: its fingerprint, its exception, the first thousand characters of what it says, and its time. */
  predicate Tells(job: Job, source: LogSource, rules: Rules, row: LogRow, s: Seen) {
    && row.message.Some?
    && var line := row.message.value; var said := SaidBy(source, rules, line);
      s == Seen(PrintOf(source, rules, line), rules.parse(source, line).exceptionType,
        if |said| > 1000 then said[..1000] else said, HappenedAt(row, job.nowMs))
  }

  lemma SeenOfRow(job: Job, source: LogSource, rules: Rules, row: LogRow)
    requires row.message.Some?
    ensures Tells(job, source, rules, row, SeenOf(job, source, rules, row))
  {}

  function BearerSet(source: LogSource, rules: Rules, rows: seq<LogRow>, mark: string): set<int> {
    set i | 0 <= i < |rows| && Bears(source, rules, rows[i], mark)
  }

  lemma BearersStep(source: LogSource, rules: Rules, rows: seq<LogRow>, last: LogRow, mark: string)
    ensures |BearerSet(source, rules, rows + [last], mark)|
         == |BearerSet(source, rules, rows, mark)| + (if Bears(source, rules, last, mark) then 1 else 0)
  {
    hide Bears;
    assert BearerSet(source, rules, rows + [last], mark)
        == BearerSet(source, rules, rows, mark) + (if Bears(source, rules, last, mark) then {|rows|} else {});
  }

  function GroupOf(job: Job, source: LogSource, rules: Rules, rows: seq<LogRow>, mark: string): seq<Seen> {
    Members(SeenRows(job, source, rules, rows), FingerprintOf, mark)
  }

  /** One more row adds an entry for itself to the group of the fingerprint it bears, and to no other. */
  lemma GroupGrows(job: Job, source: LogSource, rules: Rules, rows: seq<LogRow>, mark: string) returns (added: seq<Seen>)
    requires rows != []
    ensures var n := |rows| - 1;
      && GroupOf(job, source, rules, rows, mark) == GroupOf(job, source, rules, rows[..n], mark) + added
      && |added| == (if Bears(source, rules, rows[n], mark) then 1 else 0)
      && (added != [] ==> Tells(job, source, rules, rows[n], added[0]))
  {
    var before, last := rows[..|rows| - 1], rows[|rows| - 1];
    var seen := SeenRows(job, source, rules, before);
    added := [];
    if last.message.Some? {
      var s := SeenOf(job, source, rules, last);
      SeenOfRow(job, source, rules, last);
      hide Members, SeenOf;
      MembersStep(seen, s, FingerprintOf, mark);
      added := if s.fingerprint == mark then [s] else [];
      assert Members(seen, FingerprintOf, mark) + [] == Members(seen, FingerprintOf, mark);
    }
  }

  lemma {:induction false} GroupCounts(job: Job, source: LogSource, rules: Rules, rows: seq<LogRow>, mark: string)
    ensures |GroupOf(job, source, rules, rows, mark)| == |BearerSet(source, rules, rows, mark)|
  {
    if rows == [] {
      assert BearerSet(source, rules, [], mark) == {};
    } else {
      hide GroupOf, BearerSet, Bears;
      var added := GroupGrows(job, source, rules, rows, mark);
      GroupCounts(job, source, rules, rows[..|rows| - 1], mark);
      BearersStep(source, rules, rows[..|rows| - 1], rows[|rows| - 1], mark);
      AllButLast(rows);
    }
  }

  lemma {:induction false} GroupIsOfRows(job: Job, source: LogSource, rules: Rules, rows: seq<LogRow>, mark: string, s: Seen)
      returns (i: nat)
    requires s in GroupOf(job, source, rules, rows, mark)
    ensures i < |rows| && Bears(source, rules, rows[i], mark) && Tells(job, source, rules, rows[i], s)
  {
    assert rows != [];
    hide GroupOf, Bears, Tells;
    var added := GroupGrows(job, source, rules, rows, mark);
    if s in GroupOf(job, source, rules, rows[..|rows| - 1], mark) {
      i := GroupIsOfRows(job, source, rules, rows[..|rows| - 1], mark, s);
    } else {
      i := |rows| - 1;
      assert s in added;
    }
  }

  lemma {:induction false} RowIsInGroup(job: Job, source: LogSource, rules: Rules, rows: seq<LogRow>, mark: string, i: nat)
      returns (s: Seen)
    requires i < |rows| && Bears(source, rules, rows[i], mark)
    ensures s in GroupOf(job, source, rules, rows, mark) && Tells(job, source, rules, rows[i], s)
  {
    hide GroupOf, Bears, Tells;
    var n := |rows| - 1;
    var added := GroupGrows(job, source, rules, rows, mark);
    if i < n {
      assert rows[..n][i] == rows[i];
      s := RowIsInGroup(job, source, rules, rows[..n], mark, i);
    } else {
      s := added[0];
      assert s in added;
    }
  }

  lemma {:induction false} FirstOfGroup(job: Job, source: LogSource, rules: Rules, rows: seq<LogRow>, mark: string, i: nat)
    requires BearsFirst(source, rules, rows, i, mark)
    ensures var group := GroupOf(job, source, rules, rows, mark);
      group != [] && Tells(job, source, rules, rows[i], group[0])
  {
    var n := |rows| - 1;
    hide GroupOf, Bears, Tells;
    var added := GroupGrows(job, source, rules, rows, mark);
    if i < n {
      assert rows[..n][i] == rows[i] && forall j :: 0 <= j < i ==> rows[..n][j] == rows[j];
      FirstOfGroup(job, source, rules, rows[..n], mark, i);
    } else {
      NobodyYet(job, source, rules, rows[..n], mark);
    }
  }

  lemma NobodyYet(job: Job, source: LogSource, rules: Rules, rows: seq<LogRow>, mark: string)
    requires forall j :: 0 <= j < |rows| ==> !Bears(source, rules, rows[j], mark)
    ensures GroupOf(job, source, rules, rows, mark) == []
  {
    GroupCounts(job, source, rules, rows, mark);
    assert BearerSet(source, rules, rows, mark) == {};
  }

  /**
   * A record stands for the rows whose message has its fingerprint, and for no others: it counts them, its time is the
   * latest of theirs, and the first of them gives its exception and its sample, of at most a thousand characters.
   */
  ghost predicate StandsFor(record: Record, job: Job, source: LogSource, rules: Rules, rows: seq<LogRow>) {
    && record.count == |BearerSet(source, rules, rows, record.fingerprint)| > 0
    && (forall i :: 0 <= i < |rows| && Bears(source, rules, rows[i], record.fingerprint) ==>
          HappenedAt(rows[i], job.nowMs) <= record.at)
    && (exists i :: 0 <= i < |rows| && Bears(source, rules, rows[i], record.fingerprint)
          && HappenedAt(rows[i], job.nowMs) == record.at)
    && (forall i :: BearsFirst(source, rules, rows, i, record.fingerprint) ==>
          SampledFrom(record, source, rules, rows[i].message))
  }

  predicate SampledFrom(record: Record, source: LogSource, rules: Rules, message: Option<string>) {
    && message.Some?
    && record.exceptionType == rules.parse(source, message.value).exceptionType
    && var said := SaidBy(source, rules, message.value);
      record.sampleMessage == if |said| > 1000 then said[..1000] else said
  }

  lemma RecordStands(job: Job, source: LogSource, rules: Rules, rows: seq<LogRow>, mark: string)
    requires GroupOf(job, source, rules, rows, mark) != []
    ensures var record := RecordOf(job, source, GroupOf(job, source, rules, rows, mark));
      record.fingerprint == mark && StandsFor(record, job, source, rules, rows)
  {
    hide SeenRows, Members, Bears, BearerSet, BearsFirst, Latest, SaidBy, HappenedAt;
    var group := GroupOf(job, source, rules, rows, mark);
    GroupShares(SeenRows(job, source, rules, rows), mark);
    GroupCounts(job, source, rules, rows, mark);
    LatestIsGreatest(group);
    forall i | 0 <= i < |rows| && Bears(source, rules, rows[i], mark) ensures HappenedAt(rows[i], job.nowMs) <= Latest(group) {
      var s := RowIsInGroup(job, source, rules, rows, mark, i);
    }
    var s :| s in group && s.at == Latest(group);
    var l := GroupIsOfRows(job, source, rules, rows, mark, s);
    forall i | BearsFirst(source, rules, rows, i, mark)
      ensures 0 <= i < |rows| && Tells(job, source, rules, rows[i], group[0])
    {
      FirstIsThere(source, rules, rows, i, mark);
      FirstOfGroup(job, source, rules, rows, mark, i);
    }
  }

  lemma FirstIsThere(source: LogSource, rules: Rules, rows: seq<LogRow>, i: int, mark: string)
    requires BearsFirst(source, rules, rows, i, mark)
    ensures 0 <= i < |rows|
  {}

  /** Each record of a call stands for its rows, and bears the connection, scope, log source and service of the call. */
  lemma RecordsStandForRows(job: Job, source: LogSource, rules: Rules, rows: seq<LogRow>, k: nat)
    requires k < |Recorded(job, source, rules, rows)|
    ensures var record := Recorded(job, source, rules, rows)[k];
      StandsFor(record, job, source, rules, rows) && ComesFrom(record, job, source)
  {
    hide StandsFor, RecordOf;
    var seen := SeenRows(job, source, rules, rows);
    GroupsAreInhabited(seen, FingerprintOf);
    var mark := Firsts(seen, FingerprintOf)[k];
    GroupsHoldTheirKey(seen, FingerprintOf, mark);
    RecordStands(job, source, rules, rows, mark);
    BearsItsCall(job, source, Members(seen, FingerprintOf, mark));
  }

  lemma BearsItsCall(job: Job, source: LogSource, group: seq<Seen>)
    requires group != []
    ensures ComesFrom(RecordOf(job, source, group), job, source)
  {}

  /** Every row that has a message has a record, and one only, with the fingerprint of that message. */
  lemma EveryRowHasItsRecord(job: Job, source: LogSource, rules: Rules, rows: seq<LogRow>, i: nat) returns (k: nat)
    requires i < |rows| && rows[i].message.Some?
    ensures var recorded, mark := Recorded(job, source, rules, rows), PrintOf(source, rules, rows[i].message.value);
      && k < |recorded| && recorded[k].fingerprint == mark
      && forall l :: 0 <= l < |recorded| && recorded[l].fingerprint == mark ==> l == k
  {
    hide Recorded, SeenRows, Members, PrintOf;
    var mark := PrintOf(source, rules, rows[i].message.value);
    RecordsAreDistinct(job, source, rules, rows);
    var s := RowIsInGroup(job, source, rules, rows, mark, i);
    GroupsHoldTheirKey(SeenRows(job, source, rules, rows), FingerprintOf, mark);
    k :| 0 <= k < |Recorded(job, source, rules, rows)| && Recorded(job, source, rules, rows)[k].fingerprint == s.fingerprint;
  }
}
