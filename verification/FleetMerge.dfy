/** Merging the per-instance top lists into one table: grouping, conservation and order, over exact loads. */
module FleetMerge {
  import opened Collections
  import opened Wrappers
  import opened Texts
  import opened Numbers
  import opened Sorting

  datatype Entry = Entry(id: Option<Text>, caption: Text, load: real)
  datatype InstanceKeys = InstanceKeys(instance: Text, href: Text, keys: seq<Entry>)

  datatype Origin = Origin(instance: Text, load: real, href: Text)
  datatype Bucket = Bucket(key: Text, caption: Text, labelLoad: Option<real>, totalLoad: real, origins: seq<Origin>)

  datatype SharedOrigin = SharedOrigin(origin: Origin, sharePercent: real)
  datatype Row = Row(
    key: Text, caption: Text, totalLoad: real, sharePercent: real, instanceCount: nat, origins: seq<SharedOrigin>)

  datatype QuerySort = ByLoad | ByInstances

  /** A locale's order of names, as a rank; names it does not tell apart have equal ranks. */
  type Collation = Text -> real

  const NO_ID: Text := [110, 111, 45, 105, 100, 58]
  const COLON: Unit := 58

  function NoIdKey(instance: Text, index: nat): Text {
    NO_ID + instance + [COLON] + Decimal(index)
  }

  function KeyOf(instance: Text, index: nat, entry: Entry): Text {
    match entry.id case Some(id) => id case None => NoIdKey(instance, index)
  }

  /** One input entry with its key and where it comes from. */
  datatype Keyed = Keyed(key: Text, caption: Text, origin: Origin)

  function KeyedOf(list: InstanceKeys, index: nat): Keyed
    requires index < |list.keys|
  {
    var entry := list.keys[index];
    Keyed(KeyOf(list.instance, index, entry), entry.caption, Origin(list.instance, entry.load, list.href))
  }

  function KeyedUpTo(list: InstanceKeys, n: nat): (r: seq<Keyed>)
    requires n <= |list.keys|
    ensures |r| == n
  {
    if n == 0 then [] else KeyedUpTo(list, n - 1) + [KeyedOf(list, n - 1)]
  }

  /** Every input entry, in the order the nested loops reach them. */
  function AllKeyed(lists: seq<InstanceKeys>): seq<Keyed> {
    if lists == [] then []
    else AllKeyed(lists[..|lists| - 1]) + KeyedUpTo(lists[|lists| - 1], |lists[|lists| - 1].keys|)
  }

  function TotalLoad(entries: seq<Keyed>): real {
    if entries == [] then 0.0 else TotalLoad(entries[..|entries| - 1]) + entries[|entries| - 1].origin.load
  }

  function OriginsOf(entries: seq<Keyed>, key: Text): seq<Origin> {
    if entries == [] then []
    else
      var last := entries[|entries| - 1];
      OriginsOf(entries[..|entries| - 1], key) + (if last.key == key then [last.origin] else [])
  }

  function LoadsOf(origins: seq<Origin>): real {
    if origins == [] then 0.0 else LoadsOf(origins[..|origins| - 1]) + origins[|origins| - 1].load
  }

  /** The map the source fills, with the insertion order its iteration follows. */
  datatype Buckets = Buckets(order: seq<Text>, byKey: map<Text, Bucket>)

  /** The n-th bucket in insertion order; every key of the order is in the map. */
  function BucketAt(b: Buckets, n: nat): Bucket
    requires n < |b.order|
  {
    if b.order[n] in b.byKey then b.byKey[b.order[n]] else Bucket(b.order[n], [], None, 0.0, [])
  }

  function SumBuckets(b: Buckets, n: nat): real
    requires n <= |b.order|
  {
    if n == 0 then 0.0 else SumBuckets(b, n - 1) + BucketAt(b, n - 1).totalLoad
  }

  function CountOrigins(b: Buckets, n: nat): nat
    requires n <= |b.order|
  {
    if n == 0 then 0 else CountOrigins(b, n - 1) + |BucketAt(b, n - 1).origins|
  }

  /** The entry at i is the first of the heaviest of its key. */
  predicate FirstHeaviest(entries: seq<Keyed>, i: nat) {
    && i < |entries|
    && (forall j :: 0 <= j < |entries| && entries[j].key == entries[i].key ==>
      entries[j].origin.load <= entries[i].origin.load)
    && (forall j :: 0 <= j < i && entries[j].key == entries[i].key ==> entries[j].origin.load < entries[i].origin.load)
  }

  predicate LabelledBy(bucket: Bucket, entries: seq<Keyed>, i: nat) {
    && FirstHeaviest(entries, i)
    && entries[i].key == bucket.key && entries[i].caption == bucket.caption
    && bucket.labelLoad == Some(entries[i].origin.load)
  }

  ghost predicate HeaviestLabel(bucket: Bucket, entries: seq<Keyed>) {
    exists i: nat :: LabelledBy(bucket, entries, i)
  }

  ghost predicate BucketIs(bucket: Bucket, key: Text, entries: seq<Keyed>) {
    && bucket.key == key
    && bucket.origins == OriginsOf(entries, key) && bucket.origins != []
    && bucket.totalLoad == LoadsOf(bucket.origins)
    && HeaviestLabel(bucket, entries)
  }

  predicate Indexed(b: Buckets) {
    && (forall i, j :: 0 <= i < j < |b.order| ==> b.order[i] != b.order[j])
    && (forall i :: 0 <= i < |b.order| ==> b.order[i] in b.byKey)
    && (forall k :: k in b.byKey ==> k in b.order)
  }

  ghost predicate BucketsAre(b: Buckets, entries: seq<Keyed>) {
    && (forall k :: k in b.byKey ==> BucketIs(b.byKey[k], k, entries))
    && (forall k :: k !in b.byKey ==> OriginsOf(entries, k) == [])
  }

  predicate SumsUpTo(b: Buckets, entries: seq<Keyed>) {
    && SumBuckets(b, |b.order|) == TotalLoad(entries)
    && CountOrigins(b, |b.order|) == |entries|
  }

  function FreshBucket(e: Keyed): Bucket {
    Bucket(e.key, e.caption, None, 0.0, [])
  }

  function AddTo(bucket: Bucket, e: Keyed): Bucket {
    var heavier := bucket.labelLoad.None? || e.origin.load > bucket.labelLoad.value;
    Bucket(bucket.key,
      if heavier then e.caption else bucket.caption,
      if heavier then Some(e.origin.load) else bucket.labelLoad,
      bucket.totalLoad + e.origin.load,
      bucket.origins + [e.origin])
  }

  function Add(b: Buckets, e: Keyed): Buckets {
    var bucket := if e.key in b.byKey then b.byKey[e.key] else FreshBucket(e);
    Buckets(if e.key in b.byKey then b.order else b.order + [e.key], b.byKey[e.key := AddTo(bucket, e)])
  }

  lemma AddKeepsIndex(b: Buckets, e: Keyed)
    requires Indexed(b)
    ensures Indexed(Add(b, e))
  {
    var b' := Add(b, e);
    forall k | k in b'.byKey ensures k in b'.order {
      if k != e.key || e.key in b.byKey {
        assert k in b.order;
      } else {
        assert b'.order[|b.order|] == k;
      }
    }
  }

  lemma BucketAfterAdd(b: Buckets, e: Keyed, n: nat)
    requires Indexed(b) && n < |b.order|
    ensures n < |Add(b, e).order|
    ensures BucketAt(Add(b, e), n) == if b.order[n] == e.key then AddTo(BucketAt(b, n), e) else BucketAt(b, n)
  {
    assert Add(b, e).order[n] == b.order[n];
  }

  lemma SeenOneMore(b: Buckets, e: Keyed, n: nat)
    requires Indexed(b) && 0 < n <= |b.order|
    ensures e.key in b.order[..n] <==> e.key in b.order[..n - 1] || e.key == b.order[n - 1]
    ensures e.key == b.order[n - 1] ==> e.key !in b.order[..n - 1]
  {
    assert b.order[..n] == b.order[..n - 1] + [b.order[n - 1]];
  }

  /** Adding an entry to a key already there raises the sums by its load and by one, from that key's place on. */
  lemma {:induction false} SumsAfterAdd(b: Buckets, e: Keyed, n: nat)
    requires Indexed(b) && n <= |b.order| <= |Add(b, e).order|
    ensures SumBuckets(Add(b, e), n) == SumBuckets(b, n) + (if e.key in b.order[..n] then e.origin.load else 0.0)
    ensures CountOrigins(Add(b, e), n) == CountOrigins(b, n) + (if e.key in b.order[..n] then 1 else 0)
  {
    hide FreshBucket, BucketAt, Add, Indexed;
    if n > 0 {
      SumsAfterAdd(b, e, n - 1);
      SeenOneMore(b, e, n);
      BucketAfterAdd(b, e, n - 1);
    }
  }

  lemma SumsTotal(b: Buckets, e: Keyed)
    requires Indexed(b)
    ensures Indexed(Add(b, e))
    ensures SumBuckets(Add(b, e), |Add(b, e).order|) == SumBuckets(b, |b.order|) + e.origin.load
    ensures CountOrigins(Add(b, e), |Add(b, e).order|) == CountOrigins(b, |b.order|) + 1
  {
    hide BucketAt, CountOrigins;
    AddKeepsIndex(b, e);
    SumsAfterAdd(b, e, |b.order|);
    assert b.order[..|b.order|] == b.order;
    if e.key in b.byKey {
      assert e.key in b.order && Add(b, e).order == b.order;
    } else {
      SumsOfNewKey(b, e);
    }
  }

  lemma SumsOfNewKey(b: Buckets, e: Keyed)
    requires e.key !in b.byKey
    ensures |Add(b, e).order| == |b.order| + 1
    ensures SumBuckets(Add(b, e), |b.order| + 1) == SumBuckets(Add(b, e), |b.order|) + e.origin.load
    ensures CountOrigins(Add(b, e), |b.order| + 1) == CountOrigins(Add(b, e), |b.order|) + 1
  {
    assert BucketAt(Add(b, e), |b.order|) == AddTo(FreshBucket(e), e);
  }

  lemma OriginsStep(entries: seq<Keyed>, e: Keyed, k: Text)
    ensures OriginsOf(entries + [e], k) == OriginsOf(entries, k) + (if e.key == k then [e.origin] else [])
  {
    assert (entries + [e])[..|entries|] == entries;
  }

  lemma LabelKept(bucket: Bucket, entries: seq<Keyed>, e: Keyed)
    requires HeaviestLabel(bucket, entries)
    requires e.key == bucket.key ==> bucket.labelLoad.Some? && e.origin.load <= bucket.labelLoad.value
    ensures HeaviestLabel(bucket, entries + [e])
  {
    var i: nat :| LabelledBy(bucket, entries, i);
    assert LabelledBy(bucket, entries + [e], i);
  }

  lemma LabelTaken(bucket: Bucket, entries: seq<Keyed>, e: Keyed)
    requires e.key == bucket.key && e.caption == bucket.caption && bucket.labelLoad == Some(e.origin.load)
    requires forall i :: 0 <= i < |entries| && entries[i].key == e.key ==> entries[i].origin.load < e.origin.load
    ensures HeaviestLabel(bucket, entries + [e])
  {
    assert LabelledBy(bucket, entries + [e], |entries|);
  }

  lemma LabelAfterAdd(bucket: Bucket, entries: seq<Keyed>, e: Keyed)
    requires e.key == bucket.key && HeaviestLabel(bucket, entries)
    ensures HeaviestLabel(AddTo(bucket, e), entries + [e])
  {
    var i: nat :| LabelledBy(bucket, entries, i);
    if e.origin.load > entries[i].origin.load {
      LabelTaken(AddTo(bucket, e), entries, e);
    } else {
      assert LabelledBy(AddTo(bucket, e), entries, i);
      LabelKept(AddTo(bucket, e), entries, e);
    }
  }

  lemma LoadsStep(origins: seq<Origin>, o: Origin)
    ensures LoadsOf(origins + [o]) == LoadsOf(origins) + o.load
  {
    assert (origins + [o])[..|origins|] == origins;
  }

  lemma OtherBucketKept(bucket: Bucket, k: Text, entries: seq<Keyed>, e: Keyed)
    requires BucketIs(bucket, k, entries) && e.key != k
    ensures BucketIs(bucket, k, entries + [e])
  {
    OriginsStep(entries, e, k);
    LabelKept(bucket, entries, e);
  }

  lemma BucketGrows(bucket: Bucket, entries: seq<Keyed>, e: Keyed)
    requires BucketIs(bucket, e.key, entries)
    ensures BucketIs(AddTo(bucket, e), e.key, entries + [e])
  {
    OriginsStep(entries, e, e.key);
    LoadsStep(bucket.origins, e.origin);
    LabelAfterAdd(bucket, entries, e);
  }

  lemma BucketBegins(entries: seq<Keyed>, e: Keyed)
    requires OriginsOf(entries, e.key) == []
    ensures BucketIs(AddTo(FreshBucket(e), e), e.key, entries + [e])
  {
    OriginsStep(entries, e, e.key);
    LoadsStep([], e.origin);
    NoneWithKey(entries, e.key);
    LabelTaken(AddTo(FreshBucket(e), e), entries, e);
  }

  lemma AddKeepsBuckets(b: Buckets, entries: seq<Keyed>, e: Keyed, k: Text)
    requires BucketsAre(b, entries)
    ensures k in Add(b, e).byKey ==> BucketIs(Add(b, e).byKey[k], k, entries + [e])
    ensures k !in Add(b, e).byKey ==> OriginsOf(entries + [e], k) == []
  {
    OriginsStep(entries, e, k);
    if k != e.key {
      if k in b.byKey {
        OtherBucketKept(b.byKey[k], k, entries, e);
      }
    } else if k in b.byKey {
      BucketGrows(b.byKey[k], entries, e);
    } else {
      BucketBegins(entries, e);
    }
  }

  lemma AddKeepsAll(b: Buckets, entries: seq<Keyed>, e: Keyed)
    requires BucketsAre(b, entries)
    ensures BucketsAre(Add(b, e), entries + [e])
  {
    forall k ensures k in Add(b, e).byKey ==> BucketIs(Add(b, e).byKey[k], k, entries + [e])
      ensures k !in Add(b, e).byKey ==> OriginsOf(entries + [e], k) == []
    {
      AddKeepsBuckets(b, entries, e, k);
    }
  }

  lemma {:induction false} NoneWithKey(entries: seq<Keyed>, k: Text)
    requires OriginsOf(entries, k) == []
    ensures forall i :: 0 <= i < |entries| ==> entries[i].key != k
  {
    if entries != [] {
      NoneWithKey(entries[..|entries| - 1], k);
    }
  }

  // ---- Rows ----

  function Share(part: real, whole: real): real {
    if whole == 0.0 then 0.0 else part * 100.0 / whole
  }

  predicate OriginLe(rank: Collation, a: Origin, b: Origin) {
    a.load > b.load || (a.load == b.load && rank(a.instance) <= rank(b.instance))
  }

  predicate RowLe(sort: QuerySort, rank: Collation, a: Row, b: Row) {
    match sort
    case ByLoad =>
      || a.totalLoad > b.totalLoad
      || (a.totalLoad == b.totalLoad && a.instanceCount > b.instanceCount)
      || (a.totalLoad == b.totalLoad && a.instanceCount == b.instanceCount && rank(a.key) <= rank(b.key))
    case ByInstances =>
      || a.instanceCount > b.instanceCount
      || (a.instanceCount == b.instanceCount && a.totalLoad > b.totalLoad)
      || (a.instanceCount == b.instanceCount && a.totalLoad == b.totalLoad && rank(a.key) <= rank(b.key))
  }

  function ByOrigin(rank: Collation): (Origin, Origin) -> bool {
    (a, b) => OriginLe(rank, a, b)
  }

  function ByRow(sort: QuerySort, rank: Collation): (Row, Row) -> bool {
    (a, b) => RowLe(sort, rank, a, b)
  }

  function SharedOrigins(origins: seq<Origin>, total: real): (r: seq<SharedOrigin>)
    ensures |r| == |origins| && forall i :: 0 <= i < |r| ==> r[i] == SharedOrigin(origins[i], Share(origins[i].load, total))
  {
    seq(|origins|, i requires 0 <= i < |origins| => SharedOrigin(origins[i], Share(origins[i].load, total)))
  }

  function RowOf(bucket: Bucket, totalLoad: real, rank: Collation): Row {
    Row(bucket.key, bucket.caption, bucket.totalLoad, Share(bucket.totalLoad, totalLoad), |bucket.origins|,
      SharedOrigins(Sort(bucket.origins, ByOrigin(rank)), bucket.totalLoad))
  }

  function RowsOf(b: Buckets, totalLoad: real, rank: Collation, n: nat): (r: seq<Row>)
    requires n <= |b.order|
    ensures |r| == n && forall i :: 0 <= i < n ==> r[i] == RowOf(BucketAt(b, i), totalLoad, rank)
  {
    if n == 0 then [] else RowsOf(b, totalLoad, rank, n - 1) + [RowOf(BucketAt(b, n - 1), totalLoad, rank)]
  }

  function SumRows(rows: seq<Row>): real {
    if rows == [] then 0.0 else rows[0].totalLoad + SumRows(rows[1..])
  }

  function SumShares(rows: seq<Row>): real {
    if rows == [] then 0.0 else rows[0].sharePercent + SumShares(rows[1..])
  }

  function SumCounts(rows: seq<Row>): nat {
    if rows == [] then 0 else rows[0].instanceCount + SumCounts(rows[1..])
  }

  lemma {:induction false} InsertSums(x: Row, rows: seq<Row>, le: (Row, Row) -> bool)
    ensures SumRows(Insert(x, rows, le)) == x.totalLoad + SumRows(rows)
    ensures SumShares(Insert(x, rows, le)) == x.sharePercent + SumShares(rows)
    ensures SumCounts(Insert(x, rows, le)) == x.instanceCount + SumCounts(rows)
  {
    if rows == [] || le(x, rows[0]) {
      assert ([x] + rows)[1..] == rows;
    } else {
      InsertSums(x, rows[1..], le);
      assert Insert(x, rows, le)[1..] == Insert(x, rows[1..], le);
    }
  }

  lemma {:induction false} SortSums(rows: seq<Row>, le: (Row, Row) -> bool)
    ensures SumRows(Sort(rows, le)) == SumRows(rows) && SumShares(Sort(rows, le)) == SumShares(rows)
    ensures SumCounts(Sort(rows, le)) == SumCounts(rows)
  {
    if rows != [] {
      SortSums(rows[1..], le);
      InsertSums(rows[0], Sort(rows[1..], le), le);
    }
  }

  lemma {:induction false} SumsAppend(rows: seq<Row>, x: Row)
    ensures SumRows(rows + [x]) == SumRows(rows) + x.totalLoad
    ensures SumShares(rows + [x]) == SumShares(rows) + x.sharePercent
    ensures SumCounts(rows + [x]) == SumCounts(rows) + x.instanceCount
  {
    if rows == [] {
      assert (rows + [x])[1..] == [];
    } else {
      assert (rows + [x])[1..] == rows[1..] + [x];
      SumsAppend(rows[1..], x);
    }
  }

  lemma ShareAdds(a: real, b: real, whole: real)
    ensures Share(a + b, whole) == Share(a, whole) + Share(b, whole)
  {}

  lemma {:induction false} RowSums(b: Buckets, totalLoad: real, rank: Collation, n: nat)
    requires n <= |b.order|
    ensures SumRows(RowsOf(b, totalLoad, rank, n)) == SumBuckets(b, n)
    ensures SumCounts(RowsOf(b, totalLoad, rank, n)) == CountOrigins(b, n)
  {
    if n > 0 {
      RowSums(b, totalLoad, rank, n - 1);
      SumsAppend(RowsOf(b, totalLoad, rank, n - 1), RowOf(BucketAt(b, n - 1), totalLoad, rank));
    }
  }

  predicate SharesOf(rows: seq<Row>, whole: real) {
    forall i :: 0 <= i < |rows| ==> rows[i].sharePercent == Share(rows[i].totalLoad, whole)
  }

  /** The shares of some rows sum to the share of their sum. */
  lemma {:induction false} SharesSum(rows: seq<Row>, whole: real)
    requires SharesOf(rows, whole)
    ensures SumShares(rows) == Share(SumRows(rows), whole)
  {
    if rows != [] {
      assert SharesOf(rows[1..], whole);
      SharesSum(rows[1..], whole);
      ShareAdds(rows[0].totalLoad, SumRows(rows[1..]), whole);
    }
  }

  // ---- The merge ----

  /** The buckets after every entry was added. */
  function Filled(entries: seq<Keyed>): Buckets {
    if entries == [] then Buckets([], map[]) else Add(Filled(entries[..|entries| - 1]), entries[|entries| - 1])
  }

  function Total(entries: seq<Keyed>): real {
    SumBuckets(Filled(entries), |Filled(entries).order|)
  }

  function Unsorted(entries: seq<Keyed>, rank: Collation): seq<Row> {
    RowsOf(Filled(entries), Total(entries), rank, |Filled(entries).order|)
  }

  function Merged(entries: seq<Keyed>, sort: QuerySort, rank: Collation): seq<Row> {
    Sort(Unsorted(entries, rank), ByRow(sort, rank))
  }

  lemma FilledStep(entries: seq<Keyed>, e: Keyed)
    ensures Filled(entries + [e]) == Add(Filled(entries), e)
  {
    assert (entries + [e])[..|entries|] == entries;
  }

  lemma FilledOneMore(before: seq<Keyed>, list: InstanceKeys, index: nat)
    requires index < |list.keys|
    ensures Filled(before + KeyedUpTo(list, index + 1)) == Add(Filled(before + KeyedUpTo(list, index)), KeyedOf(list, index))
  {
    FilledStep(before + KeyedUpTo(list, index), KeyedOf(list, index));
    AppendAssociates(before, KeyedUpTo(list, index), [KeyedOf(list, index)]);
  }

  /** The inner loop of the source: one instance's list, in its order. */
  method FillFrom(list: InstanceKeys, order0: seq<Text>, byKey0: map<Text, Bucket>, ghost before: seq<Keyed>)
    returns (order: seq<Text>, byKey: map<Text, Bucket>)
    requires Buckets(order0, byKey0) == Filled(before)
    ensures Buckets(order, byKey) == Filled(before + KeyedUpTo(list, |list.keys|))
  {
    order, byKey := order0, byKey0;
    assert before + KeyedUpTo(list, 0) == before;
    for index := 0 to |list.keys|
      invariant Buckets(order, byKey) == Filled(before + KeyedUpTo(list, index))
    {
      FilledOneMore(before, list, index);
      var entry := list.keys[index];
      var e := Keyed(KeyOf(list.instance, index, entry), entry.caption, Origin(list.instance, entry.load, list.href));
      if e.key in byKey {
        byKey := byKey[e.key := AddTo(byKey[e.key], e)];
      } else {
        order, byKey := order + [e.key], byKey[e.key := AddTo(FreshBucket(e), e)];
      }
    }
  }

  /** The nested loops of the source fill the map in the order of the input. */
  method FillBuckets(perInstance: seq<InstanceKeys>) returns (order: seq<Text>, byKey: map<Text, Bucket>)
    ensures Buckets(order, byKey) == Filled(AllKeyed(perInstance))
  {
    order, byKey := [], map[];
    for i := 0 to |perInstance|
      invariant Buckets(order, byKey) == Filled(AllKeyed(perInstance[..i]))
    {
      order, byKey := FillFrom(perInstance[i], order, byKey, AllKeyed(perInstance[..i]));
      assert perInstance[..i + 1][..i] == perInstance[..i];
    }
    assert perInstance[..|perInstance|] == perInstance;
  }

  method SumLoads(b: Buckets) returns (totalLoad: real)
    ensures totalLoad == SumBuckets(b, |b.order|)
  {
    totalLoad := 0.0;
    for n := 0 to |b.order|
      invariant totalLoad == SumBuckets(b, n)
    {
      totalLoad := totalLoad + BucketAt(b, n).totalLoad;
    }
  }

  method MergeFleetKeys(perInstance: seq<InstanceKeys>, sort: QuerySort, rank: Collation)
    returns (rows: seq<Row>, totalLoad: real)
    ensures totalLoad == Total(AllKeyed(perInstance))
    ensures rows == Merged(AllKeyed(perInstance), sort, rank)
  {
    var order, byKey := FillBuckets(perInstance);
    totalLoad := SumLoads(Buckets(order, byKey));
    rows := Sort(RowsOf(Buckets(order, byKey), totalLoad, rank, |order|), ByRow(sort, rank));
  }

  // ---- What goes into it ----

  function Before(lists: seq<InstanceKeys>, i: nat): nat
    requires i <= |lists|
  {
    if i == 0 then 0 else Before(lists, i - 1) + |lists[i - 1].keys|
  }

  /** What entry j of list i stands for: its own id or, without one, `no-id:`, its instance, a colon and j. */
  function Entered(lists: seq<InstanceKeys>, i: nat, j: nat): Keyed
    requires i < |lists| && j < |lists[i].keys|
  {
    var list := lists[i];
    var entry := list.keys[j];
    Keyed(
      if entry.id == None then [0x6E, 0x6F, 0x2D, 0x69, 0x64, 0x3A] + list.instance + [0x3A] + Decimal(j) else entry.id.value,
      entry.caption, Origin(list.instance, entry.load, list.href))
  }

  lemma {:induction false} KeyedAt(list: InstanceKeys, n: nat, j: nat)
    requires j < n <= |list.keys|
    ensures KeyedUpTo(list, n)[j] == KeyedOf(list, j)
  {
    if j < n - 1 {
      KeyedAt(list, n - 1, j);
    }
  }

  lemma {:induction false} BeforeAgrees(lists: seq<InstanceKeys>, more: seq<InstanceKeys>, i: nat)
    requires i <= |lists|
    ensures Before(lists + more, i) == Before(lists, i)
  {
    if i > 0 {
      BeforeAgrees(lists, more, i - 1);
    }
  }

  lemma {:induction false} KeyedSize(lists: seq<InstanceKeys>)
    ensures |AllKeyed(lists)| == Before(lists, |lists|)
  {
    if lists != [] {
      var n := |lists| - 1;
      KeyedSize(lists[..n]);
      assert lists == lists[..n] + [lists[n]];
      BeforeAgrees(lists[..n], [lists[n]], n);
    }
  }

  /** The entries that are merged are those listed, list by list and each list from its top, and no others. */
  lemma {:induction false} EveryEntryIsMerged(lists: seq<InstanceKeys>, i: nat, j: nat)
    requires i < |lists| && j < |lists[i].keys|
    ensures |AllKeyed(lists)| == Before(lists, |lists|) && Before(lists, i) + j < |AllKeyed(lists)|
    ensures AllKeyed(lists)[Before(lists, i) + j] == Entered(lists, i, j)
  {
    var n := |lists| - 1;
    var before := lists[..n];
    assert lists == before + [lists[n]];
    KeyedSize(lists);
    KeyedSize(before);
    BeforeAgrees(before, [lists[n]], i);
    if i < n {
      EveryEntryIsMerged(before, i, j);
    } else {
      KeyedAt(lists[n], |lists[n].keys|, j);
    }
  }

  // ---- What the table promises ----

  lemma {:induction false} FilledIsIndexed(entries: seq<Keyed>)
    ensures Indexed(Filled(entries))
  {
    if entries != [] {
      FilledIsIndexed(entries[..|entries| - 1]);
      AddKeepsIndex(Filled(entries[..|entries| - 1]), entries[|entries| - 1]);
    }
  }

  lemma {:induction false} FilledIsGrouped(entries: seq<Keyed>)
    ensures BucketsAre(Filled(entries), entries)
  {
    if entries == [] {
      NothingIsGrouped(entries);
    } else {
      var before, last := entries[..|entries| - 1], entries[|entries| - 1];
      assert entries == before + [last];
      FilledIsGrouped(before);
      AddKeepsAll(Filled(before), before, last);
    }
  }

  lemma NothingIsGrouped(entries: seq<Keyed>)
    requires entries == []
    ensures BucketsAre(Filled(entries), entries)
  {}

  lemma {:induction false} FilledSumsUp(entries: seq<Keyed>)
    ensures SumsUpTo(Filled(entries), entries)
  {
    if entries != [] {
      var before, last := entries[..|entries| - 1], entries[|entries| - 1];
      FilledSumsUp(before);
      FilledIsIndexed(before);
      SumsTotal(Filled(before), last);
    }
  }

  lemma ShareOfWhole(whole: real)
    ensures Share(whole, whole) == if whole == 0.0 then 0.0 else 100.0
  {}

  lemma TotalIsInput(entries: seq<Keyed>)
    ensures Total(entries) == TotalLoad(entries)
    ensures CountOrigins(Filled(entries), |Filled(entries).order|) == |entries|
  {
    FilledSumsUp(entries);
  }

  /** No load is lost or invented: rows, total and input agree, and every input entry is counted as one origin. */
  lemma LoadIsConserved(entries: seq<Keyed>, sort: QuerySort, rank: Collation)
    ensures SumRows(Merged(entries, sort, rank)) == Total(entries) == TotalLoad(entries)
    ensures SumCounts(Merged(entries, sort, rank)) == |entries|
    ensures SumShares(Merged(entries, sort, rank)) == if TotalLoad(entries) == 0.0 then 0.0 else 100.0
  {
    hide SumRows, SumCounts, SumShares, TotalLoad, Filled, Sort, ByRow;
    TotalIsInput(entries);
    RowSums(Filled(entries), Total(entries), rank, |Filled(entries).order|);
    SharesSum(Unsorted(entries, rank), Total(entries));
    SortSums(Unsorted(entries, rank), ByRow(sort, rank));
    ShareOfWhole(Total(entries));
  }

  function Bare(origins: seq<SharedOrigin>): (r: seq<Origin>)
    ensures |r| == |origins| && forall i :: 0 <= i < |r| ==> r[i] == origins[i].origin
  {
    seq(|origins|, i requires 0 <= i < |origins| => origins[i].origin)
  }

  lemma OriginOrderIsTotal(rank: Collation)
    ensures TotalPreorder(ByOrigin(rank))
  {}

  lemma RowOrderIsTotal(sort: QuerySort, rank: Collation)
    ensures TotalPreorder(ByRow(sort, rank))
  {}

  lemma RowsAreOrdered(entries: seq<Keyed>, sort: QuerySort, rank: Collation)
    ensures OrderedBy(Merged(entries, sort, rank), ByRow(sort, rank))
  {
    RowOrderIsTotal(sort, rank);
    SortOrders(Unsorted(entries, rank), ByRow(sort, rank));
  }

  /**
   * Of any two rows the one above bears at least the load of the one below, and where they bear the same, comes from
   * at least as many instances, and where that is the same too, is not named later; or, asked for the other way
   * round, comes from at least as many instances, and then bears at least the load.
   */
  lemma RowsAreSorted(entries: seq<Keyed>, sort: QuerySort, rank: Collation, i: nat, j: nat)
    requires i < j < |Merged(entries, sort, rank)|
    ensures var a, b := Merged(entries, sort, rank)[i], Merged(entries, sort, rank)[j];
      && (sort == ByLoad ==> a.totalLoad >= b.totalLoad)
      && (sort == ByLoad && a.totalLoad == b.totalLoad ==> a.instanceCount >= b.instanceCount)
      && (sort == ByInstances ==> a.instanceCount >= b.instanceCount)
      && (sort == ByInstances && a.instanceCount == b.instanceCount ==> a.totalLoad >= b.totalLoad)
      && (a.totalLoad == b.totalLoad && a.instanceCount == b.instanceCount ==> rank(a.key) <= rank(b.key))
  {
    hide Merged;
    RowsAreOrdered(entries, sort, rank);
    assert ByRow(sort, rank)(Merged(entries, sort, rank)[i], Merged(entries, sort, rank)[j]);
  }

  lemma RowIsABucket(entries: seq<Keyed>, sort: QuerySort, rank: Collation, row: Row) returns (bucket: Bucket)
    requires row in Merged(entries, sort, rank)
    ensures row == RowOf(bucket, Total(entries), rank) && BucketIs(bucket, row.key, entries)
  {
    var unsorted := Unsorted(entries, rank);
    SortElements(unsorted, ByRow(sort, rank));
    assert row in multiset(unsorted);
    var n :| 0 <= n < |unsorted| && unsorted[n] == row;
    BucketAtIs(entries, n);
    bucket := BucketAt(Filled(entries), n);
  }

  lemma BucketAtIs(entries: seq<Keyed>, n: nat)
    requires n < |Filled(entries).order|
    ensures BucketIs(BucketAt(Filled(entries), n), Filled(entries).order[n], entries)
  {
    FilledIsIndexed(entries);
    FilledIsGrouped(entries);
  }

  lemma UnsortedAreDistinct(entries: seq<Keyed>, rank: Collation)
    ensures DistinctKeys(Unsorted(entries, rank))
  {
    FilledIsIndexed(entries);
    forall n: nat | n < |Filled(entries).order|
      ensures BucketAt(Filled(entries), n).key == Filled(entries).order[n]
    {
      BucketAtIs(entries, n);
    }
  }

  lemma OriginsAreSorted(bucket: Bucket, total: real, rank: Collation)
    ensures var bare := Bare(RowOf(bucket, total, rank).origins);
      multiset(bare) == multiset(bucket.origins) && OrderedBy(bare, ByOrigin(rank))
  {
    OriginOrderIsTotal(rank);
    SortOrders(bucket.origins, ByOrigin(rank));
    SortElements(bucket.origins, ByOrigin(rank));
    assert Bare(RowOf(bucket, total, rank).origins) == Sort(bucket.origins, ByOrigin(rank));
  }

  /** No lighter origin comes before a heavier one, and of equals none is named later. */
  predicate HeavierFirst(rank: Collation, above: Origin, below: Origin) {
    above.load >= below.load && (above.load == below.load ==> rank(above.instance) <= rank(below.instance))
  }

  /**
   * A row's origins are exactly the entries with its key, heaviest first; its total and its count are theirs,
   * and its label is that of the first of the heaviest of them.
   */
  lemma RowsAreTheGroups(entries: seq<Keyed>, sort: QuerySort, rank: Collation, row: Row)
    requires row in Merged(entries, sort, rank)
    ensures multiset(Bare(row.origins)) == multiset(OriginsOf(entries, row.key))
    ensures forall i, j :: 0 <= i < j < |row.origins| ==> HeavierFirst(rank, row.origins[i].origin, row.origins[j].origin)
    ensures row.totalLoad == LoadsOf(OriginsOf(entries, row.key)) && row.instanceCount == |OriginsOf(entries, row.key)| > 0
    ensures exists i: nat :: FirstHeaviest(entries, i) && entries[i].key == row.key && entries[i].caption == row.caption
  {
    var bucket := RowIsABucket(entries, sort, rank, row);
    OriginsAreSorted(bucket, Total(entries), rank);
    forall i, j | 0 <= i < j < |row.origins| ensures HeavierFirst(rank, row.origins[i].origin, row.origins[j].origin) {
      assert ByOrigin(rank)(Bare(row.origins)[i], Bare(row.origins)[j]);
    }
    var i: nat :| LabelledBy(bucket, entries, i);
  }

  /** The share is the part's proportion of the whole, in per cent; of nothing it is zero. */
  predicate IsProportion(share: real, part: real, whole: real) {
    if whole == 0.0 then share == 0.0 else share * whole == 100.0 * part
  }

  lemma ShareIsProportion(part: real, whole: real)
    ensures IsProportion(Share(part, whole), part, whole)
  {}

  lemma RowShareIsProportion(bucket: Bucket, total: real, rank: Collation, i: nat)
    requires i < |bucket.origins|
    ensures var row := RowOf(bucket, total, rank);
      && IsProportion(row.sharePercent, row.totalLoad, total)
      && IsProportion(row.origins[i].sharePercent, row.origins[i].origin.load, row.totalLoad)
  {
    ShareIsProportion(bucket.totalLoad, total);
    ShareIsProportion(Sort(bucket.origins, ByOrigin(rank))[i].load, bucket.totalLoad);
  }

  /** A row's share is its proportion of the whole table's load, and an origin's share its proportion of the row's. */
  lemma SharesAreProportions(entries: seq<Keyed>, sort: QuerySort, rank: Collation, row: Row, i: nat)
    requires row in Merged(entries, sort, rank) && i < |row.origins|
    ensures IsProportion(row.sharePercent, row.totalLoad, TotalLoad(entries))
    ensures IsProportion(row.origins[i].sharePercent, row.origins[i].origin.load, row.totalLoad)
  {
    var bucket := RowIsABucket(entries, sort, rank, row);
    TotalIsInput(entries);
    RowShareIsProportion(bucket, Total(entries), rank, i);
  }

  predicate DistinctKeys(rows: seq<Row>) {
    forall m, n :: 0 <= m < n < |rows| ==> rows[m].key != rows[n].key
  }

  lemma {:induction false} InsertKeepsDistinct(x: Row, rows: seq<Row>, le: (Row, Row) -> bool)
    requires DistinctKeys([x] + rows)
    ensures DistinctKeys(Insert(x, rows, le))
  {
    if !(rows == [] || le(x, rows[0])) {
      var rest := Insert(x, rows[1..], le);
      DistinctCons(x, rows);
      FirstThenRest(rows);
      DistinctCons(rows[0], rows[1..]);
      DistinctCons(x, rows[1..]);
      InsertKeepsDistinct(x, rows[1..], le);
      InsertElements(x, rows[1..], le);
      forall n | 0 <= n < |rest| ensures rest[n].key != rows[0].key {
        assert rest[n] in multiset(rest);
        assert rest[n] == x || rest[n] in rows[1..];
      }
      DistinctCons(rows[0], rest);
    }
  }

  lemma DistinctCons(x: Row, rows: seq<Row>)
    ensures DistinctKeys([x] + rows) <==> DistinctKeys(rows) && forall n :: 0 <= n < |rows| ==> rows[n].key != x.key
  {
    var all := [x] + rows;
    assert all[0] == x && forall n :: 0 <= n < |rows| ==> all[n + 1] == rows[n];
    if DistinctKeys(rows) && forall n :: 0 <= n < |rows| ==> rows[n].key != x.key {
      forall m, n | 0 <= m < n < |all| ensures all[m].key != all[n].key {
        assert all[n] == rows[n - 1];
        if m > 0 {
          assert all[m] == rows[m - 1];
        }
      }
    }
    if DistinctKeys(all) {
      forall m, n | 0 <= m < n < |rows| ensures rows[m].key != rows[n].key {
        assert all[m + 1].key != all[n + 1].key;
      }
      forall n | 0 <= n < |rows| ensures rows[n].key != x.key {
        assert all[0].key != all[n + 1].key;
      }
    }
  }

  lemma {:induction false} SortKeepsDistinct(rows: seq<Row>, le: (Row, Row) -> bool)
    requires DistinctKeys(rows)
    ensures DistinctKeys(Sort(rows, le))
  {
    if rows != [] {
      var rest := Sort(rows[1..], le);
      SortKeepsDistinct(rows[1..], le);
      forall n | 0 <= n < |rest| ensures rest[n].key != rows[0].key {
        SortedIsIn(rows[1..], le, n);
      }
      InsertKeepsDistinct(rows[0], rest, le);
    }
  }

  lemma SortedIsIn(rows: seq<Row>, le: (Row, Row) -> bool, n: nat)
    requires n < |rows|
    ensures Sort(rows, le)[n] in rows
  {
    hide Sort;
    SortElements(rows, le);
    assert Sort(rows, le)[n] in multiset(Sort(rows, le));
  }

  /** Every entry's key has a row, no two rows share a key, and no row has a key no entry has. */
  lemma EveryKeyHasOneRow(entries: seq<Keyed>, sort: QuerySort, rank: Collation, key: Text)
    ensures DistinctKeys(Merged(entries, sort, rank))
    ensures (exists row :: row in Merged(entries, sort, rank) && row.key == key)
       <==> (exists e :: e in entries && e.key == key)
  {
    UnsortedAreDistinct(entries, rank);
    SortKeepsDistinct(Unsorted(entries, rank), ByRow(sort, rank));
    if e :| e in entries && e.key == key {
      KeyHasRow(entries, sort, rank, e);
    }
    if row :| row in Merged(entries, sort, rank) && row.key == key {
      RowsAreTheGroups(entries, sort, rank, row);
      var i: nat :| FirstHeaviest(entries, i) && entries[i].key == row.key;
      assert entries[i] in entries;
    }
  }

  lemma KeyHasRow(entries: seq<Keyed>, sort: QuerySort, rank: Collation, e: Keyed)
    requires e in entries
    ensures exists row :: row in Merged(entries, sort, rank) && row.key == e.key
  {
    var n := PlaceOf(entries, e);
    BucketAtIs(entries, n);
    var row := Unsorted(entries, rank)[n];
    SortElements(Unsorted(entries, rank), ByRow(sort, rank));
    assert row in multiset(Merged(entries, sort, rank));
  }

  lemma PlaceOf(entries: seq<Keyed>, e: Keyed) returns (n: nat)
    requires e in entries
    ensures n < |Filled(entries).order| && Filled(entries).order[n] == e.key
  {
    var b := Filled(entries);
    FilledIsIndexed(entries);
    FilledIsGrouped(entries);
    if e.key !in b.byKey {
      NoneWithKey(entries, e.key);
    }
    n :| 0 <= n < |b.order| && b.order[n] == e.key;
  }

  // ---- Which entries merge ----

  /** No real id looks like the key of an entry without one. */
  predicate RealId(id: Text) {
    !(NO_ID <= id)
  }

  lemma {:induction false} DecimalIsInjective(m: nat, n: nat)
    requires Decimal(m) == Decimal(n)
    ensures m == n
  {
    DigitsOfDecimal(m);
    DigitsOfDecimal(n);
  }

  /** The last colon of such a key ends the instance name, so the key gives both parts back. */
  lemma NoIdKeysAreInjective(a: Text, m: nat, b: Text, n: nat)
    requires NoIdKey(a, m) == NoIdKey(b, n)
    ensures a == b && m == n
  {
    LastColon(NO_ID + a, Decimal(m), NO_ID + b, Decimal(n));
    DecimalIsInjective(m, n);
    assert (NO_ID + a)[|NO_ID|..] == a && (NO_ID + b)[|NO_ID|..] == b;
  }

  lemma LastColon(a: Text, m: Text, b: Text, n: Text)
    requires a + [COLON] + m == b + [COLON] + n && COLON !in m && COLON !in n
    ensures a == b && m == n
  {
    if |a| < |b| {
      LaterColon(a, m, b, n);
    } else if |b| < |a| {
      LaterColon(b, n, a, m);
    } else {
      var k, l := a + [COLON] + m, b + [COLON] + n;
      assert k[..|a|] == a && l[..|b|] == b;
      assert k[|a| + 1..] == m && l[|b| + 1..] == n;
    }
  }

  lemma LaterColon(a: Text, m: Text, b: Text, n: Text)
    requires a + [COLON] + m == b + [COLON] + n && |a| < |b|
    ensures COLON in m
  {
    assert (b + [COLON] + n)[|b|] == COLON;
    assert (a + [COLON] + m)[|b|] == m[|b| - |a| - 1];
  }

  /** An id that reads as the key of an entry without one. */
  predicate Imitates(id: Option<Text>, other: InstanceKeys, n: nat)
    requires n < |other.keys|
  {
    id.Some? && other.keys[n].id.None? && id.value == NoIdKey(other.instance, n)
  }

  /** Exactly when two entries share a key: one id, or none and one instance and place, or an id that imitates a generated key. */
  lemma MergeExactly(a: InstanceKeys, m: nat, b: InstanceKeys, n: nat)
    requires m < |a.keys| && n < |b.keys|
    ensures KeyedOf(a, m).key == KeyedOf(b, n).key <==>
      || (a.keys[m].id.Some? && a.keys[m].id == b.keys[n].id)
      || (a.keys[m].id.None? && b.keys[n].id.None? && a.instance == b.instance && m == n)
      || Imitates(a.keys[m].id, b, n) || Imitates(b.keys[n].id, a, m)
  {
    if a.keys[m].id.None? && b.keys[n].id.None? && NoIdKey(a.instance, m) == NoIdKey(b.instance, n) {
      NoIdKeysAreInjective(a.instance, m, b.instance, n);
    }
  }

  /** So among real ids entries merge on the id, and without ids only if lists of one instance name have them in one place. */
  lemma MergeOnlyOnIds(a: InstanceKeys, m: nat, b: InstanceKeys, n: nat)
    requires m < |a.keys| && n < |b.keys|
    requires a.keys[m].id.Some? ==> RealId(a.keys[m].id.value)
    requires b.keys[n].id.Some? ==> RealId(b.keys[n].id.value)
    ensures KeyedOf(a, m).key == KeyedOf(b, n).key <==>
      || (a.keys[m].id.Some? && a.keys[m].id == b.keys[n].id)
      || (a.keys[m].id.None? && b.keys[n].id.None? && a.instance == b.instance && m == n)
  {
    MergeExactly(a, m, b, n);
    assert NO_ID <= NoIdKey(a.instance, m) && NO_ID <= NoIdKey(b.instance, n);
  }

  /** Any entry without an id can be imitated: a second one whose id is the generated key joins its row. */
  lemma ImitationMerges(list: InstanceKeys, m: nat, caption: Text, load: real)
    requires m < |list.keys| && list.keys[m].id.None?
    ensures var imitation := InstanceKeys(list.instance, list.href,
                [Entry(Some([0x6E, 0x6F, 0x2D, 0x69, 0x64, 0x3A] + list.instance + [0x3A] + Decimal(m)), caption, load)]);
      KeyedOf(imitation, 0).key == KeyedOf(list, m).key && imitation.keys[0].id != list.keys[m].id
  {}

  // ---- An entry without an id has its row to itself ----

  predicate RealIds(lists: seq<InstanceKeys>) {
    forall i, j :: 0 <= i < |lists| && 0 <= j < |lists[i].keys| && lists[i].keys[j].id.Some? ==> RealId(lists[i].keys[j].id.value)
  }

  predicate DistinctInstances(lists: seq<InstanceKeys>) {
    forall i, j :: 0 <= i < j < |lists| ==> lists[i].instance != lists[j].instance
  }

  lemma {:induction false} OriginsConcat(a: seq<Keyed>, b: seq<Keyed>, k: Text)
    ensures OriginsOf(a + b, k) == OriginsOf(a, k) + OriginsOf(b, k)
  {
    if b == [] {
      assert a + b == a;
    } else {
      var before, last := b[..|b| - 1], b[|b| - 1];
      OriginsConcat(a, before, k);
      AllButLast(b);
      OriginsConcatStep(a, before, last, k);
    }
  }

  lemma OriginsConcatStep(a: seq<Keyed>, before: seq<Keyed>, last: Keyed, k: Text)
    requires OriginsOf(a + before, k) == OriginsOf(a, k) + OriginsOf(before, k)
    ensures OriginsOf(a + (before + [last]), k) == OriginsOf(a, k) + OriginsOf(before + [last], k)
  {
    hide OriginsOf;
    AppendAssociates(a, before, [last]);
    OriginsStep(a + before, last, k);
    OriginsStep(before, last, k);
    AppendAssociates(OriginsOf(a, k), OriginsOf(before, k), if last.key == k then [last.origin] else []);
  }

  lemma OnceAppended(x: Origin, earlier: bool, now: bool)
    requires !(earlier && now)
    ensures (if earlier then [x] else []) + (if now then [x] else []) == if earlier || now then [x] else []
  {}

  /** The entries of one list that have the key of the id-less entry m of list a: that entry, if it is among them. */
  lemma {:induction false} OwnOrigins(lists: seq<InstanceKeys>, a: nat, m: nat, b: nat, n: nat)
    requires RealIds(lists) && DistinctInstances(lists) && a < |lists| && b < |lists|
    requires m < |lists[a].keys| && lists[a].keys[m].id.None? && n <= |lists[b].keys|
    ensures OriginsOf(KeyedUpTo(lists[b], n), KeyedOf(lists[a], m).key)
         == if a == b && m < n then [KeyedOf(lists[a], m).origin] else []
  {
    hide *;
    if n == 0 {
      NoneKeyed(lists[b], KeyedOf(lists[a], m).key);
    } else {
      var own := KeyedOf(lists[a], m);
      OwnOrigins(lists, a, m, b, n - 1);
      OneMoreKeyed(lists[b], n - 1, own.key);
      IdlessKeysDiffer(lists, a, m, b, n - 1);
      OnceAppended(own.origin, a == b && m < n - 1, a == b && m == n - 1);
      assert OriginsOf(KeyedUpTo(lists[b], n), own.key)
          == (if a == b && m < n - 1 then [own.origin] else []) + (if a == b && m == n - 1 then [own.origin] else []);
    }
  }

  lemma NoneKeyed(list: InstanceKeys, key: Text)
    ensures OriginsOf(KeyedUpTo(list, 0), key) == []
  {}

  lemma OneMoreKeyed(list: InstanceKeys, n: nat, key: Text)
    requires n < |list.keys|
    ensures OriginsOf(KeyedUpTo(list, n + 1), key)
         == OriginsOf(KeyedUpTo(list, n), key) + (if KeyedOf(list, n).key == key then [KeyedOf(list, n).origin] else [])
  {
    hide OriginsOf;
    OriginsStep(KeyedUpTo(list, n), KeyedOf(list, n), key);
  }

  lemma IdlessKeysDiffer(lists: seq<InstanceKeys>, a: nat, m: nat, b: nat, n: nat)
    requires RealIds(lists) && DistinctInstances(lists) && a < |lists| && b < |lists|
    requires m < |lists[a].keys| && lists[a].keys[m].id.None? && n < |lists[b].keys|
    ensures KeyedOf(lists[b], n).key == KeyedOf(lists[a], m).key <==> a == b && m == n
  {
    MergeOnlyOnIds(lists[b], n, lists[a], m);
  }

  lemma {:induction false} AloneUpTo(lists: seq<InstanceKeys>, a: nat, m: nat, n: nat)
    requires RealIds(lists) && DistinctInstances(lists) && a < |lists| && n <= |lists|
    requires m < |lists[a].keys| && lists[a].keys[m].id.None?
    ensures OriginsOf(AllKeyed(lists[..n]), KeyedOf(lists[a], m).key)
         == if a < n then [KeyedOf(lists[a], m).origin] else []
  {
    hide *;
    if n == 0 {
      NothingKeyed(lists, KeyedOf(lists[a], m).key);
    } else {
      AloneUpTo(lists, a, m, n - 1);
      AloneOneMore(lists, a, m, n - 1);
    }
  }

  lemma NothingKeyed(lists: seq<InstanceKeys>, key: Text)
    ensures OriginsOf(AllKeyed(lists[..0]), key) == []
  {
    assert lists[..0] == [];
  }

  lemma AloneOneMore(lists: seq<InstanceKeys>, a: nat, m: nat, n: nat)
    requires RealIds(lists) && DistinctInstances(lists) && a < |lists| && n < |lists|
    requires m < |lists[a].keys| && lists[a].keys[m].id.None?
    requires var own := KeyedOf(lists[a], m);
      OriginsOf(AllKeyed(lists[..n]), own.key) == if a < n then [own.origin] else []
    ensures var own := KeyedOf(lists[a], m);
      OriginsOf(AllKeyed(lists[..n + 1]), own.key) == if a < n + 1 then [own.origin] else []
  {
    hide *;
    var before, last := AllKeyed(lists[..n]), KeyedUpTo(lists[n], |lists[n].keys|);
    var own := KeyedOf(lists[a], m);
    OwnOrigins(lists, a, m, n, |lists[n].keys|);
    KeyedOneMore(lists, n);
    OriginsConcat(before, last, own.key);
    OnceAppended(own.origin, a < n, a == n);
  }

  lemma KeyedOneMore(lists: seq<InstanceKeys>, n: nat)
    requires n < |lists|
    ensures AllKeyed(lists[..n + 1]) == AllKeyed(lists[..n]) + KeyedUpTo(lists[n], |lists[n].keys|)
  {
    assert lists[..n + 1][..n] == lists[..n];
  }

  /** With one list an instance and real ids, an entry without an id has a row of its own, and is its only origin. */
  lemma IdlessStandsAlone(lists: seq<InstanceKeys>, a: nat, m: nat, sort: QuerySort, rank: Collation, row: Row)
    requires RealIds(lists) && DistinctInstances(lists) && a < |lists|
    requires m < |lists[a].keys| && lists[a].keys[m].id.None?
    requires row in Merged(AllKeyed(lists), sort, rank) && row.key == KeyedOf(lists[a], m).key
    ensures row.instanceCount == 1 && Bare(row.origins) == [KeyedOf(lists[a], m).origin]
  {
    hide Merged, AllKeyed, KeyOf;
    assert lists[..|lists|] == lists;
    AloneUpTo(lists, a, m, |lists|);
    RowsAreTheGroups(AllKeyed(lists), sort, rank, row);
    OnlyElement(Bare(row.origins), KeyedOf(lists[a], m).origin);
  }
}
