/** What the merged table does not depend on: the order in which the instances, and so the entries, are listed. */
module FleetOrder {
  import opened Collections
  import opened Texts
  import opened Sorting
  import opened FleetMerge

  // ---- Sums and groups ----

  function LoadOf(o: Origin): real { o.load }

  function EntryLoad(e: Keyed): real { e.origin.load }

  function Placed(e: Keyed): (Text, Origin) { (e.key, e.origin) }

  lemma {:induction false} LoadsAreSum(origins: seq<Origin>)
    ensures LoadsOf(origins) == SumOf(origins, LoadOf)
  {
    if origins != [] {
      var before, last := origins[..|origins| - 1], origins[|origins| - 1];
      LoadsAreSum(before);
      AllButLast(origins);
      SumOfConcat(before, [last], LoadOf);
    }
  }

  lemma {:induction false} TotalIsSum(entries: seq<Keyed>)
    ensures TotalLoad(entries) == SumOf(entries, EntryLoad)
  {
    if entries != [] {
      var before, last := entries[..|entries| - 1], entries[|entries| - 1];
      TotalIsSum(before);
      AllButLast(entries);
      SumOfConcat(before, [last], EntryLoad);
    }
  }

  lemma {:induction false} OriginsCount(entries: seq<Keyed>, key: Text, o: Origin)
    ensures multiset(OriginsOf(entries, key))[o] == Images(entries, Placed)[(key, o)]
  {
    if entries != [] {
      var before, last := entries[..|entries| - 1], entries[|entries| - 1];
      OriginsCount(before, key, o);
      AllButLast(entries);
      OriginsCountStep(before, last, key, o);
    }
  }

  lemma OriginsCountStep(before: seq<Keyed>, last: Keyed, key: Text, o: Origin)
    ensures multiset(OriginsOf(before + [last], key))[o]
         == multiset(OriginsOf(before, key))[o] + (if last.key == key && last.origin == o then 1 else 0)
    ensures Images(before + [last], Placed)[(key, o)]
         == Images(before, Placed)[(key, o)] + (if last.key == key && last.origin == o then 1 else 0)
  {
    hide OriginsOf, Images;
    OriginsStep(before, last, key);
    ElementsOfConcat(OriginsOf(before, key), if last.key == key then [last.origin] else []);
    ImagesConcat(before, [last], Placed);
    ImagesOfOne(last, Placed);
  }

  lemma OriginsOfPermutation(a: seq<Keyed>, b: seq<Keyed>, key: Text)
    requires multiset(a) == multiset(b)
    ensures multiset(OriginsOf(a, key)) == multiset(OriginsOf(b, key))
    ensures LoadsOf(OriginsOf(a, key)) == LoadsOf(OriginsOf(b, key)) && |OriginsOf(a, key)| == |OriginsOf(b, key)|
  {
    hide OriginsOf, Images, LoadsOf, SumOf;
    ImagesOfPermutation(a, b, Placed);
    forall o ensures multiset(OriginsOf(a, key))[o] == multiset(OriginsOf(b, key))[o] {
      OriginsCount(a, key, o);
      OriginsCount(b, key, o);
    }
    assert multiset(OriginsOf(a, key)) == multiset(OriginsOf(b, key));
    SumOfPermutation(OriginsOf(a, key), OriginsOf(b, key), LoadOf);
    LoadsAreSum(OriginsOf(a, key));
    LoadsAreSum(OriginsOf(b, key));
    assert |multiset(OriginsOf(a, key))| == |multiset(OriginsOf(b, key))|;
  }

  lemma TotalOfPermutation(a: seq<Keyed>, b: seq<Keyed>)
    requires multiset(a) == multiset(b)
    ensures Total(a) == Total(b)
  {
    hide Total, TotalLoad, SumOf;
    TotalIsInput(a);
    TotalIsInput(b);
    TotalIsSum(a);
    TotalIsSum(b);
    SumOfPermutation(a, b, EntryLoad);
  }

  lemma SameEntries(a: seq<Keyed>, b: seq<Keyed>)
    requires multiset(a) == multiset(b)
    ensures forall e :: e in a <==> e in b
  {
    assert forall e :: e in a <==> e in multiset(a);
    assert forall e :: e in b <==> e in multiset(b);
  }

  // ---- One row ----

  /** The locale's order tells the keys of the table apart. */
  predicate KeysApart(rank: Collation, entries: seq<Keyed>) {
    forall x, y :: x in entries && y in entries && rank(x.key) == rank(y.key) ==> x.key == y.key
  }

  /** It tells the instances apart too, and each of them has one page. */
  predicate InstancesApart(rank: Collation, entries: seq<Keyed>) {
    forall x, y :: x in entries && y in entries && rank(x.origin.instance) == rank(y.origin.instance) ==>
      x.origin.instance == y.origin.instance && x.origin.href == y.origin.href
  }

  lemma {:induction false} OriginIsOfEntry(entries: seq<Keyed>, key: Text, o: Origin) returns (e: Keyed)
    requires o in OriginsOf(entries, key)
    ensures e in entries && e.key == key && e.origin == o
  {
    var last := |entries| - 1;
    if o in OriginsOf(entries[..last], key) {
      e := OriginIsOfEntry(entries[..last], key, o);
    } else {
      e := entries[last];
    }
  }

  lemma OriginsAreApart(entries: seq<Keyed>, key: Text, rank: Collation)
    requires InstancesApart(rank, entries)
    ensures var sorted := Sort(OriginsOf(entries, key), ByOrigin(rank));
      OrderedBy(sorted, ByOrigin(rank)) && Antisymmetric(sorted, ByOrigin(rank))
  {
    hide Sort, OriginsOf;
    var origins := OriginsOf(entries, key);
    var sorted := Sort(origins, ByOrigin(rank));
    OriginOrderIsTotal(rank);
    SortOrders(origins, ByOrigin(rank));
    SortElements(origins, ByOrigin(rank));
    forall i, j | 0 <= i < |sorted| && 0 <= j < |sorted|
        && ByOrigin(rank)(sorted[i], sorted[j]) && ByOrigin(rank)(sorted[j], sorted[i])
      ensures sorted[i] == sorted[j]
    {
      assert sorted[i] in multiset(sorted) && sorted[j] in multiset(sorted);
      var x := OriginIsOfEntry(entries, key, sorted[i]);
      var y := OriginIsOfEntry(entries, key, sorted[j]);
      assert rank(x.origin.instance) == rank(y.origin.instance);
    }
  }

  lemma SortedOriginsAgree(a: seq<Keyed>, b: seq<Keyed>, key: Text, rank: Collation)
    requires multiset(a) == multiset(b) && InstancesApart(rank, a)
    ensures Sort(OriginsOf(a, key), ByOrigin(rank)) == Sort(OriginsOf(b, key), ByOrigin(rank))
  {
    hide Sort, OriginsOf, Antisymmetric;
    SameEntries(a, b);
    OriginsOfPermutation(a, b, key);
    OriginsAreApart(a, key, rank);
    OriginsAreApart(b, key, rank);
    SortElements(OriginsOf(a, key), ByOrigin(rank));
    SortElements(OriginsOf(b, key), ByOrigin(rank));
    OrderedIsUnique(Sort(OriginsOf(a, key), ByOrigin(rank)), Sort(OriginsOf(b, key), ByOrigin(rank)), ByOrigin(rank));
  }

  /** All of a row but its label and the list of its origins. */
  function Figures(row: Row): Row { row.(caption := [], origins := []) }

  lemma FiguresAgree(a: seq<Keyed>, b: seq<Keyed>, sort: QuerySort, rank: Collation, row: Row, row': Row)
    requires multiset(a) == multiset(b)
    requires row in Merged(a, sort, rank) && row' in Merged(b, sort, rank) && row.key == row'.key
    ensures Figures(row) == Figures(row')
  {
    hide Merged, Sort, OriginsOf, Total, LoadsOf, HeaviestLabel, Share;
    var bucket := RowIsABucket(a, sort, rank, row);
    var bucket' := RowIsABucket(b, sort, rank, row');
    OriginsOfPermutation(a, b, row.key);
    TotalOfPermutation(a, b);
  }

  lemma OriginsAgree(a: seq<Keyed>, b: seq<Keyed>, sort: QuerySort, rank: Collation, row: Row, row': Row)
    requires multiset(a) == multiset(b) && InstancesApart(rank, a)
    requires row in Merged(a, sort, rank) && row' in Merged(b, sort, rank) && row.key == row'.key
    ensures row.origins == row'.origins
  {
    hide Merged, Sort, OriginsOf, Total, LoadsOf, HeaviestLabel, Share;
    var bucket := RowIsABucket(a, sort, rank, row);
    var bucket' := RowIsABucket(b, sort, rank, row');
    OriginsOfPermutation(a, b, row.key);
    SortedOriginsAgree(a, b, row.key, rank);
  }

  /** Every heaviest entry of the key bears the same label. */
  predicate OneLabel(entries: seq<Keyed>, key: Text) {
    forall x, y :: x in entries && y in entries && Heaviest(entries, key, x) && Heaviest(entries, key, y) ==>
      x.caption == y.caption
  }

  predicate Heaviest(entries: seq<Keyed>, key: Text, x: Keyed) {
    x.key == key && forall z :: z in entries && z.key == key ==> z.origin.load <= x.origin.load
  }

  lemma LabelIsOfHeaviest(entries: seq<Keyed>, sort: QuerySort, rank: Collation, row: Row) returns (e: Keyed)
    requires row in Merged(entries, sort, rank)
    ensures e in entries && Heaviest(entries, row.key, e) && e.caption == row.caption
  {
    hide Merged, OriginsOf;
    RowsAreTheGroups(entries, sort, rank, row);
    var i: nat :| FirstHeaviest(entries, i) && entries[i].key == row.key && entries[i].caption == row.caption;
    e := entries[i];
  }

  lemma LabelsAgree(a: seq<Keyed>, b: seq<Keyed>, sort: QuerySort, rank: Collation, row: Row, row': Row)
    requires multiset(a) == multiset(b) && OneLabel(a, row.key)
    requires row in Merged(a, sort, rank) && row' in Merged(b, sort, rank) && row.key == row'.key
    ensures row.caption == row'.caption
  {
    hide Merged;
    SameEntries(a, b);
    var e := LabelIsOfHeaviest(a, sort, rank, row);
    var e' := LabelIsOfHeaviest(b, sort, rank, row');
  }

  // ---- The table ----

  function FiguresOf(rows: seq<Row>): (r: seq<Row>)
    ensures |r| == |rows| && forall i :: 0 <= i < |r| ==> r[i] == Figures(rows[i])
  {
    seq(|rows|, i requires 0 <= i < |rows| => Figures(rows[i]))
  }

  lemma FiguresCarryOver(a: seq<Keyed>, b: seq<Keyed>, sort: QuerySort, rank: Collation, x: Row)
    requires multiset(a) == multiset(b) && x in FiguresOf(Merged(a, sort, rank))
    ensures x in FiguresOf(Merged(b, sort, rank))
  {
    hide Merged;
    var rows, rows' := Merged(a, sort, rank), Merged(b, sort, rank);
    var i :| 0 <= i < |rows| && Figures(rows[i]) == x;
    SameEntries(a, b);
    EveryKeyHasOneRow(a, sort, rank, x.key);
    EveryKeyHasOneRow(b, sort, rank, x.key);
    assert rows[i] in rows && rows[i].key == x.key;
    var row :| row in rows' && row.key == x.key;
    FiguresAgree(a, b, sort, rank, rows[i], row);
    var j :| 0 <= j < |rows'| && rows'[j] == row;
    assert FiguresOf(rows')[j] == x;
  }

  lemma FiguresAreApart(entries: seq<Keyed>, sort: QuerySort, rank: Collation)
    requires KeysApart(rank, entries)
    ensures var rows := FiguresOf(Merged(entries, sort, rank));
      OrderedBy(rows, ByRow(sort, rank)) && Antisymmetric(rows, ByRow(sort, rank)) && DistinctKeys(rows)
  {
    hide Merged;
    var rows := FiguresOf(Merged(entries, sort, rank));
    RowsAreOrdered(entries, sort, rank);
    EveryKeyHasOneRow(entries, sort, rank, []);
    forall i, j | 0 <= i < |rows| && 0 <= j < |rows|
        && ByRow(sort, rank)(rows[i], rows[j]) && ByRow(sort, rank)(rows[j], rows[i])
      ensures rows[i] == rows[j]
    {
      var x := EntryOfRow(entries, sort, rank, i);
      var y := EntryOfRow(entries, sort, rank, j);
      assert rank(x.key) == rank(y.key);
    }
  }

  lemma EntryOfRow(entries: seq<Keyed>, sort: QuerySort, rank: Collation, i: nat) returns (e: Keyed)
    requires i < |Merged(entries, sort, rank)|
    ensures e in entries && e.key == Merged(entries, sort, rank)[i].key
  {
    hide Merged;
    EveryKeyHasOneRow(entries, sort, rank, Merged(entries, sort, rank)[i].key);
    e :| e in entries && e.key == Merged(entries, sort, rank)[i].key;
  }

  lemma AllFiguresAgree(a: seq<Keyed>, b: seq<Keyed>, sort: QuerySort, rank: Collation)
    requires multiset(a) == multiset(b) && KeysApart(rank, a)
    ensures FiguresOf(Merged(a, sort, rank)) == FiguresOf(Merged(b, sort, rank))
  {
    hide Merged, Antisymmetric, ByRow, KeysApart, Figures;
    var rows, rows' := FiguresOf(Merged(a, sort, rank)), FiguresOf(Merged(b, sort, rank));
    ApartToo(a, b, rank);
    FiguresAreApart(a, sort, rank);
    FiguresAreApart(b, sort, rank);
    forall x ensures x in rows <==> x in rows' {
      if x in rows { FiguresCarryOver(a, b, sort, rank, x); }
      if x in rows' { FiguresCarryOver(b, a, sort, rank, x); }
    }
    SameMembers(rows, rows');
    OrderedIsUnique(rows, rows', ByRow(sort, rank));
  }

  lemma ApartToo(a: seq<Keyed>, b: seq<Keyed>, rank: Collation)
    requires multiset(a) == multiset(b) && KeysApart(rank, a)
    ensures KeysApart(rank, b)
  {
    SameEntries(a, b);
  }

  /** Two tables that agree row by row, and on the origins and on the label where those are settled by the entries. */
  predicate SameTable(entries: seq<Keyed>, rank: Collation, rows: seq<Row>, rows': seq<Row>) {
    && |rows| == |rows'|
    && forall n :: 0 <= n < |rows| ==>
         && Figures(rows[n]) == Figures(rows'[n])
         && (InstancesApart(rank, entries) ==> rows[n].origins == rows'[n].origins)
         && (OneLabel(entries, rows[n].key) ==> rows[n].caption == rows'[n].caption)
  }

  /**
   * In whatever order the entries arrive, the rows come in one order with the same keys, loads, shares and counts;
   * their origins are the same where the instances are told apart, and a label is where its heaviest entries agree.
   */
  lemma TableIgnoresEntryOrder(a: seq<Keyed>, b: seq<Keyed>, sort: QuerySort, rank: Collation)
    requires multiset(a) == multiset(b) && KeysApart(rank, a)
    ensures Total(a) == Total(b) && SameTable(a, rank, Merged(a, sort, rank), Merged(b, sort, rank))
  {
    hide Merged, OneLabel, KeysApart, InstancesApart, Total;
    var rows, rows' := Merged(a, sort, rank), Merged(b, sort, rank);
    TotalOfPermutation(a, b);
    AllFiguresAgree(a, b, sort, rank);
    forall n | 0 <= n < |rows|
      ensures Figures(rows[n]) == Figures(rows'[n])
      ensures InstancesApart(rank, a) ==> rows[n].origins == rows'[n].origins
      ensures OneLabel(a, rows[n].key) ==> rows[n].caption == rows'[n].caption
    {
      assert FiguresOf(rows)[n] == FiguresOf(rows')[n];
      if InstancesApart(rank, a) {
        OriginsAgree(a, b, sort, rank, rows[n], rows'[n]);
      }
      if OneLabel(a, rows[n].key) {
        LabelsAgree(a, b, sort, rank, rows[n], rows'[n]);
      }
    }
  }

  // ---- The lists ----

  lemma {:induction false} KeyedConcat(a: seq<InstanceKeys>, b: seq<InstanceKeys>)
    ensures AllKeyed(a + b) == AllKeyed(a) + AllKeyed(b)
  {
    hide KeyedUpTo;
    if b == [] {
      assert a + b == a;
    } else {
      KeyedConcat(a, b[..|b| - 1]);
      KeyedConcatStep(a, b);
    }
  }

  lemma KeyedConcatStep(a: seq<InstanceKeys>, b: seq<InstanceKeys>)
    requires b != [] && AllKeyed(a + b[..|b| - 1]) == AllKeyed(a) + AllKeyed(b[..|b| - 1])
    ensures AllKeyed(a + b) == AllKeyed(a) + AllKeyed(b)
  {
    hide *;
    var before, last := b[..|b| - 1], b[|b| - 1];
    LastOfConcat(a, b);
    KeyedLast(a + b);
    KeyedLast(b);
    AppendAssociates(AllKeyed(a), AllKeyed(before), KeyedUpTo(last, |last.keys|));
  }

  lemma KeyedLast(lists: seq<InstanceKeys>)
    requires lists != []
    ensures var last := lists[|lists| - 1];
      AllKeyed(lists) == AllKeyed(lists[..|lists| - 1]) + KeyedUpTo(last, |last.keys|)
  {}

  lemma KeyedElements(a: seq<InstanceKeys>, b: seq<InstanceKeys>)
    ensures multiset(AllKeyed(a + b)) == multiset(AllKeyed(a)) + multiset(AllKeyed(b))
  {
    KeyedConcat(a, b);
    ElementsOfConcat(AllKeyed(a), AllKeyed(b));
  }

  lemma KeyedWithout(lists: seq<InstanceKeys>, i: nat)
    requires i < |lists|
    ensures multiset(AllKeyed(lists))
         == multiset(AllKeyed([lists[i]])) + multiset(AllKeyed(lists[..i] + lists[i + 1..]))
  {
    hide AllKeyed;
    var before, behind := lists[..i], lists[i + 1..];
    assert lists == before + ([lists[i]] + behind);
    KeyedElements(before, [lists[i]] + behind);
    KeyedElements([lists[i]], behind);
    KeyedElements(before, behind);
    AddSwaps(multiset(AllKeyed(before)), multiset(AllKeyed([lists[i]])), multiset(AllKeyed(behind)));
  }

  lemma {:induction false} KeyedOfPermutation(a: seq<InstanceKeys>, b: seq<InstanceKeys>)
    requires multiset(a) == multiset(b)
    ensures multiset(AllKeyed(a)) == multiset(AllKeyed(b))
  {
    hide AllKeyed;
    assert |multiset(a)| == |multiset(b)|;
    if a == [] {
      assert a == b;
    } else {
      var i := TakenOut(a, b);
      KeyedOfPermutation(a[1..], b[..i] + b[i + 1..]);
      KeyedWithout(b, i);
      FirstThenRest(a);
      KeyedElements([a[0]], a[1..]);
    }
  }

  /** So the table does not depend on the order in which the instances are listed. */
  lemma TableIgnoresListOrder(a: seq<InstanceKeys>, b: seq<InstanceKeys>, sort: QuerySort, rank: Collation)
    requires multiset(a) == multiset(b) && KeysApart(rank, AllKeyed(a))
    ensures Total(AllKeyed(a)) == Total(AllKeyed(b))
    ensures SameTable(AllKeyed(a), rank, Merged(AllKeyed(a), sort, rank), Merged(AllKeyed(b), sort, rank))
  {
    hide AllKeyed, Merged, Total, SameTable, KeysApart;
    KeyedOfPermutation(a, b);
    TableIgnoresEntryOrder(AllKeyed(a), AllKeyed(b), sort, rank);
  }

  // ---- And the labels do exactly where the heaviest entries disagree ----

  /** With a heaviest entry first, the row's label is that entry's. */
  lemma HeaviestFirstLabels(x: Keyed, rest: seq<Keyed>, sort: QuerySort, rank: Collation, row: Row)
    requires Heaviest([x] + rest, x.key, x) && row in Merged([x] + rest, sort, rank) && row.key == x.key
    ensures row.caption == x.caption
  {
    hide Merged, OriginsOf;
    var entries := [x] + rest;
    RowsAreTheGroups(entries, sort, rank, row);
    var i: nat :| FirstHeaviest(entries, i) && entries[i].key == row.key && entries[i].caption == row.caption;
    assert entries[0] == x;
    assert entries[i] in entries;
  }

  /** The label of a row is the same for every order of the entries. */
  ghost predicate LabelIsFixed(entries: seq<Keyed>, sort: QuerySort, rank: Collation, row: Row) {
    forall other: seq<Keyed>, row' {:trigger row' in Merged(other, sort, rank)} ::
      multiset(other) == multiset(entries) && row' in Merged(other, sort, rank) && row'.key == row.key
        ==> row'.caption == row.caption
  }

  lemma PutFirst(entries: seq<Keyed>, x: Keyed, sort: QuerySort, rank: Collation, row: Row)
    requires x in entries && Heaviest(entries, row.key, x)
    requires row in Merged(entries, sort, rank) && LabelIsFixed(entries, sort, rank, row)
    ensures row.caption == x.caption
  {
    hide Merged;
    var i :| 0 <= i < |entries| && entries[i] == x;
    var rest := entries[..i] + entries[i + 1..];
    ElementsWithout(entries, i);
    ElementsOfConcat([x], rest);
    SameEntries(entries, [x] + rest);
    EveryKeyHasOneRow([x] + rest, sort, rank, x.key);
    assert ([x] + rest)[0] == x;
    var row' :| row' in Merged([x] + rest, sort, rank) && row'.key == x.key;
    HeaviestFirstLabels(x, rest, sort, rank, row');
  }

  lemma LabelIsFixedIff(entries: seq<Keyed>, sort: QuerySort, rank: Collation, row: Row)
    requires row in Merged(entries, sort, rank)
    ensures LabelIsFixed(entries, sort, rank, row) <==> OneLabel(entries, row.key)
  {
    hide Merged;
    if LabelIsFixed(entries, sort, rank, row) {
      forall x, y | x in entries && y in entries && Heaviest(entries, row.key, x) && Heaviest(entries, row.key, y)
        ensures x.caption == y.caption
      {
        PutFirst(entries, x, sort, rank, row);
        PutFirst(entries, y, sort, rank, row);
      }
    }
    if OneLabel(entries, row.key) {
      forall other: seq<Keyed>, row' {:trigger row' in Merged(other, sort, rank)} |
          multiset(other) == multiset(entries) && row' in Merged(other, sort, rank) && row'.key == row.key
        ensures row'.caption == row.caption
      {
        LabelsAgree(entries, other, sort, rank, row, row');
      }
    }
  }
}
