/** The fleet page's partition: each listed instance either contributes rows or is named with a reason. */
module FleetCoverage {
  import opened Arithmetic
  import opened Collections
  import opened Wrappers
  import opened Texts
  import opened Sorting
  import opened FleetMerge

  datatype Instance = Instance(id: Text, resourceId: Option<Text>, performanceInsights: bool)
  datatype Eligible = Eligible(id: Text, resourceId: Text)

  datatype Reason = Cap | PiDisabled | NoResourceId | UnknownClass | Denied | Throttled | Error
  datatype NotCovered = NotCovered(resource: Text, reason: Reason, code: Option<Text>, action: Option<Text>)

  /** What one call came back with: a top list, or a failure whose reason is Denied, Throttled or Error. */
  datatype Answer = Answered(keys: seq<Entry>) | Refused(reason: Reason, code: Option<Text>, action: Option<Text>)

  datatype Coverage = Coverage(covered: nat, total: nat, truncated: bool)

  const MAX_INSTANCES := 50

  // ---- The cap ----

  function CapLimit(count: nat, perResource: int, cap: int): nat {
    if perResource <= 0 then count else if cap < 0 then 0 else cap / perResource
  }

  function Included<T>(resources: seq<T>, limit: nat): seq<T> {
    if |resources| <= limit then resources else resources[..limit]
  }

  function Excluded<T>(resources: seq<T>, limit: nat): seq<T> {
    if |resources| <= limit then [] else resources[limit..]
  }

  /** The cap keeps a prefix that fits the budget, and no longer prefix would. */
  lemma CapIsGreedy<T>(resources: seq<T>, perResource: int, cap: int)
    ensures var limit := CapLimit(|resources|, perResource, cap);
      && Included(resources, limit) + Excluded(resources, limit) == resources
      && (perResource > 0 && cap >= 0 ==> |Included(resources, limit)| * perResource <= cap)
      && (perResource <= 0 ==> Included(resources, limit) == resources)
      && (perResource > 0 && cap < 0 ==> Included(resources, limit) == [])
      && (Excluded(resources, limit) != [] ==> (|Included(resources, limit)| + 1) * perResource > cap)
  {
    var limit := CapLimit(|resources|, perResource, cap);
    if perResource > 0 && cap >= 0 {
      assert limit * perResource <= cap < (limit + 1) * perResource;
      MulMonotone(|Included(resources, limit)|, limit, perResource);
    }
  }

  // ---- What becomes of each instance ----

  predicate IsEligible(i: Instance) {
    i.resourceId.Some? && i.performanceInsights
  }

  function Ineligible(i: Instance): NotCovered {
    NotCovered(i.id, if i.resourceId.None? then NoResourceId else PiDisabled, None, None)
  }

  /** The instances that can be asked, in list order; the n-th of them is the n-th call. */
  function EligibleOf(instances: seq<Instance>): (r: seq<Eligible>)
    ensures |r| <= |instances|
  {
    if instances == [] then []
    else
      var last := instances[|instances| - 1];
      EligibleOf(instances[..|instances| - 1])
      + (if IsEligible(last) then [Eligible(last.id, last.resourceId.value)] else [])
  }

  /** The list an instance contributes, if it can be asked, is among the first 50 such, and is answered. */
  function Contribution(i: Instance, n: nat, ask: nat -> Answer, path: Text -> Text): seq<InstanceKeys> {
    if IsEligible(i) && n < MAX_INSTANCES && ask(n).Answered? then [InstanceKeys(i.id, path(i.id), ask(n).keys)] else []
  }

  /** Otherwise the first of these reasons that applies: it cannot be asked, the cap, or its call's own failure. */
  function Absence(i: Instance, n: nat, ask: nat -> Answer): seq<NotCovered> {
    if !IsEligible(i) then [Ineligible(i)]
    else if n >= MAX_INSTANCES then [NotCovered(i.id, Cap, None, None)]
    else if ask(n).Refused? then [NotCovered(i.id, ask(n).reason, ask(n).code, ask(n).action)]
    else []
  }

  function CoveredOf(instances: seq<Instance>, ask: nat -> Answer, path: Text -> Text): seq<InstanceKeys> {
    if instances == [] then []
    else
      var before, last := instances[..|instances| - 1], instances[|instances| - 1];
      CoveredOf(before, ask, path) + Contribution(last, |EligibleOf(before)|, ask, path)
  }

  function UncoveredOf(instances: seq<Instance>, ask: nat -> Answer): seq<NotCovered> {
    if instances == [] then []
    else
      var before, last := instances[..|instances| - 1], instances[|instances| - 1];
      UncoveredOf(before, ask) + Absence(last, |EligibleOf(before)|, ask)
  }

  // ---- The lists the source builds ----

  function MissingOf(instances: seq<Instance>): seq<NotCovered> {
    if instances == [] then []
    else
      var last := instances[|instances| - 1];
      MissingOf(instances[..|instances| - 1]) + (if IsEligible(last) then [] else [Ineligible(last)])
  }

  function AnsweredOf(included: seq<Eligible>, ask: nat -> Answer, path: Text -> Text): seq<InstanceKeys> {
    if included == [] then []
    else
      var n := |included| - 1;
      AnsweredOf(included[..n], ask, path)
      + (if ask(n).Answered? then [InstanceKeys(included[n].id, path(included[n].id), ask(n).keys)] else [])
  }

  function FailedOf(included: seq<Eligible>, ask: nat -> Answer): seq<NotCovered> {
    if included == [] then []
    else
      var n := |included| - 1;
      FailedOf(included[..n], ask)
      + (if ask(n).Refused? then [NotCovered(included[n].id, ask(n).reason, ask(n).code, ask(n).action)] else [])
  }

  function CappedOf(excluded: seq<Eligible>): (r: seq<NotCovered>)
    ensures |r| == |excluded| && forall i :: 0 <= i < |r| ==> r[i] == NotCovered(excluded[i].id, Cap, None, None)
  {
    seq(|excluded|, i requires 0 <= i < |excluded| => NotCovered(excluded[i].id, Cap, None, None))
  }

  lemma IncludedGrows<T>(s: seq<T>, x: T, limit: nat)
    ensures Included(s + [x], limit) == Included(s, limit) + (if |s| < limit then [x] else [])
    ensures Excluded(s + [x], limit) == Excluded(s, limit) + (if |s| < limit then [] else [x])
    ensures |s| < limit ==> Included(s, limit) == s
  {}

  lemma AnsweredStep(included: seq<Eligible>, x: Eligible, ask: nat -> Answer, path: Text -> Text)
    ensures var n := |included|;
      AnsweredOf(included + [x], ask, path) == AnsweredOf(included, ask, path)
        + (if ask(n).Answered? then [InstanceKeys(x.id, path(x.id), ask(n).keys)] else [])
  {
    assert (included + [x])[..|included|] == included;
  }

  lemma FailedStep(included: seq<Eligible>, x: Eligible, ask: nat -> Answer)
    ensures var n := |included|;
      FailedOf(included + [x], ask) == FailedOf(included, ask)
        + (if ask(n).Refused? then [NotCovered(x.id, ask(n).reason, ask(n).code, ask(n).action)] else [])
  {
    assert (included + [x])[..|included|] == included;
  }

  lemma CappedStep(excluded: seq<Eligible>, x: Eligible)
    ensures CappedOf(excluded + [x]) == CappedOf(excluded) + [NotCovered(x.id, Cap, None, None)]
  {}

  lemma {:induction false} CoveredIsAnswered(instances: seq<Instance>, ask: nat -> Answer, path: Text -> Text)
    ensures CoveredOf(instances, ask, path) == AnsweredOf(Included(EligibleOf(instances), MAX_INSTANCES), ask, path)
  {
    if instances != [] {
      var before, last := instances[..|instances| - 1], instances[|instances| - 1];
      CoveredIsAnswered(before, ask, path);
      AnsweredGrows(EligibleOf(before), last, ask, path);
    }
  }

  lemma AnsweredGrows(eligible: seq<Eligible>, last: Instance, ask: nat -> Answer, path: Text -> Text)
    ensures var more := eligible + (if IsEligible(last) then [Eligible(last.id, last.resourceId.value)] else []);
      AnsweredOf(Included(more, MAX_INSTANCES), ask, path)
        == AnsweredOf(Included(eligible, MAX_INSTANCES), ask, path) + Contribution(last, |eligible|, ask, path)
  {
    var answered := AnsweredOf(Included(eligible, MAX_INSTANCES), ask, path);
    assert answered + [] == answered;
    if IsEligible(last) {
      var x := Eligible(last.id, last.resourceId.value);
      IncludedGrows(eligible, x, MAX_INSTANCES);
      if |eligible| < MAX_INSTANCES {
        AnsweredStep(eligible, x, ask, path);
      } else {
        assert Included(eligible, MAX_INSTANCES) + [] == Included(eligible, MAX_INSTANCES);
      }
    } else {
      assert eligible + [] == eligible;
    }
  }

  /** The rows for the eligible: those the cap excluded, then those whose call failed. */
  function Turned(eligible: seq<Eligible>, ask: nat -> Answer): seq<NotCovered> {
    CappedOf(Excluded(eligible, MAX_INSTANCES)) + FailedOf(Included(eligible, MAX_INSTANCES), ask)
  }

  lemma TurnedGrows(eligible: seq<Eligible>, last: Instance, ask: nat -> Answer)
    requires IsEligible(last)
    ensures multiset(Turned(eligible + [Eligible(last.id, last.resourceId.value)], ask))
         == multiset(Turned(eligible, ask)) + multiset(Absence(last, |eligible|, ask))
  {
    hide Included;
    var x := Eligible(last.id, last.resourceId.value);
    IncludedGrows(eligible, x, MAX_INSTANCES);
    var capped := CappedOf(Excluded(eligible, MAX_INSTANCES));
    var failed := FailedOf(Included(eligible, MAX_INSTANCES), ask);
    var absence := Absence(last, |eligible|, ask);
    ElementsOfConcat(capped, failed);
    if |eligible| < MAX_INSTANCES {
      FailedStep(eligible, x, ask);
      assert Excluded(eligible, MAX_INSTANCES) + [] == Excluded(eligible, MAX_INSTANCES);
      ElementsOfConcat(capped, failed + absence);
      ElementsOfConcat(failed, absence);
    } else {
      CappedStep(Excluded(eligible, MAX_INSTANCES), x);
      assert Included(eligible, MAX_INSTANCES) + [] == Included(eligible, MAX_INSTANCES);
      ElementsOfConcat(capped + absence, failed);
      ElementsOfConcat(capped, absence);
    }
  }

  function Collected(instances: seq<Instance>, ask: nat -> Answer): seq<NotCovered> {
    MissingOf(instances) + Turned(EligibleOf(instances), ask)
  }

  lemma {:induction false} UncoveredIsCollected(instances: seq<Instance>, ask: nat -> Answer)
    ensures multiset(UncoveredOf(instances, ask))
         == multiset(MissingOf(instances)) + multiset(Turned(EligibleOf(instances), ask))
  {
    if instances != [] {
      var before, last := instances[..|instances| - 1], instances[|instances| - 1];
      UncoveredIsCollected(before, ask);
      ElementsOfConcat(UncoveredOf(before, ask), Absence(last, |EligibleOf(before)|, ask));
      if IsEligible(last) {
        TurnedGrows(EligibleOf(before), last, ask);
        assert MissingOf(before) + [] == MissingOf(before);
        AddAssociates(multiset(MissingOf(before)), multiset(Turned(EligibleOf(before), ask)),
          multiset(Absence(last, |EligibleOf(before)|, ask)));
      } else {
        ElementsOfConcat(MissingOf(before), [Ineligible(last)]);
        assert EligibleOf(before) + [] == EligibleOf(before);
        AddLast(multiset(MissingOf(before)), multiset(Turned(EligibleOf(before), ask)), multiset([Ineligible(last)]));
      }
    }
  }

  // ---- Sorting the reasons ----

  function ReasonOrder(reason: Reason): nat {
    match reason
    case Denied => 0
    case Throttled => 1
    case Error => 2
    case NoResourceId => 3
    case UnknownClass => 4
    case PiDisabled => 5
    case Cap => 6
  }

  predicate ReasonLe(rank: Collation, a: NotCovered, b: NotCovered) {
    || ReasonOrder(a.reason) < ReasonOrder(b.reason)
    || (ReasonOrder(a.reason) == ReasonOrder(b.reason) && rank(a.resource) <= rank(b.resource))
  }

  function ByReason(rank: Collation): (NotCovered, NotCovered) -> bool {
    (a, b) => ReasonLe(rank, a, b)
  }

  method FleetQueries(instances: seq<Instance>, ask: nat -> Answer, path: Text -> Text, sort: QuerySort, rank: Collation)
    returns (perInstance: seq<InstanceKeys>, rows: seq<Row>, totalLoad: real, coverage: Coverage, notCovered: seq<NotCovered>)
    ensures perInstance == CoveredOf(instances, ask, path)
    ensures notCovered == Sort(Collected(instances, ask), ByReason(rank))
    ensures coverage == Coverage(|perInstance|, |instances|, |perInstance| < |instances|)
    ensures rows == Merged(AllKeyed(perInstance), sort, rank) && totalLoad == Total(AllKeyed(perInstance))
  {
    var eligible, missing := [], [];
    for k := 0 to |instances|
      invariant eligible == EligibleOf(instances[..k]) && missing == MissingOf(instances[..k])
    {
      assert instances[..k + 1][..k] == instances[..k];
      var i := instances[k];
      if i.resourceId.None? {
        missing := missing + [NotCovered(i.id, NoResourceId, None, None)];
      } else if !i.performanceInsights {
        missing := missing + [NotCovered(i.id, PiDisabled, None, None)];
      } else {
        eligible := eligible + [Eligible(i.id, i.resourceId.value)];
      }
    }
    assert instances[..|instances|] == instances;
    var limit := CapLimit(|eligible|, 1, MAX_INSTANCES);
    var included, excluded := Included(eligible, limit), Excluded(eligible, limit);
    var failed := [];
    perInstance := [];
    assert limit == MAX_INSTANCES;
    for n := 0 to |included|
      invariant perInstance == AnsweredOf(included[..n], ask, path) && failed == FailedOf(included[..n], ask)
    {
      assert included[..n + 1][..n] == included[..n];
      var answer := ask(n);
      if answer.Answered? {
        perInstance := perInstance + [InstanceKeys(included[n].id, path(included[n].id), answer.keys)];
      } else {
        failed := failed + [NotCovered(included[n].id, answer.reason, answer.code, answer.action)];
      }
    }
    assert included[..|included|] == included;
    rows, totalLoad := MergeFleetKeys(perInstance, sort, rank);
    coverage := Coverage(|perInstance|, |instances|, |perInstance| < |instances|);
    notCovered := Sort(missing + (CappedOf(excluded) + failed), ByReason(rank));
    CoveredIsAnswered(instances, ask, path);
  }

  // ---- Each instance is counted once ----

  function ResourceOf(row: NotCovered): Text { row.resource }
  function ContributorOf(list: InstanceKeys): Text { list.instance }
  function IdOf(i: Instance): Text { i.id }

  lemma OneFate(i: Instance, n: nat, ask: nat -> Answer, path: Text -> Text)
    ensures Images(Contribution(i, n, ask, path), ContributorOf) + Images(Absence(i, n, ask), ResourceOf) == multiset{i.id}
    ensures |Contribution(i, n, ask, path)| + |Absence(i, n, ask)| == 1
  {
    hide Images;
    ImagesOfNone(ContributorOf);
    ImagesOfNone(ResourceOf);
    if IsEligible(i) && n < MAX_INSTANCES && ask(n).Answered? {
      ImagesOfOne(InstanceKeys(i.id, path(i.id), ask(n).keys), ContributorOf);
    } else {
      ImagesOfOne(Absence(i, n, ask)[0], ResourceOf);
    }
    AddNothing(multiset{i.id});
  }

  lemma {:induction false} EachInstanceHasOneFate(instances: seq<Instance>, ask: nat -> Answer, path: Text -> Text)
    ensures Images(CoveredOf(instances, ask, path), ContributorOf) + Images(UncoveredOf(instances, ask), ResourceOf)
         == Images(instances, IdOf)
    ensures |CoveredOf(instances, ask, path)| + |UncoveredOf(instances, ask)| == |instances|
  {
    if instances != [] {
      var before, last := instances[..|instances| - 1], instances[|instances| - 1];
      var n := |EligibleOf(before)|;
      var contribution, absence := Contribution(last, n, ask, path), Absence(last, n, ask);
      AllButLast(instances);
      ImagesConcat(before, [last], IdOf);
      EachInstanceHasOneFate(before, ask, path);
      ImagesConcat(CoveredOf(before, ask, path), contribution, ContributorOf);
      ImagesConcat(UncoveredOf(before, ask), absence, ResourceOf);
      OneFate(last, n, ask, path);
      AddBoth(Images(CoveredOf(before, ask, path), ContributorOf), Images(UncoveredOf(before, ask), ResourceOf),
        Images(contribution, ContributorOf), Images(absence, ResourceOf));
    }
  }

  lemma ReasonOrderIsTotal(rank: Collation)
    ensures TotalPreorder(ByReason(rank))
  {}

  /** The reasons, gravest first. */
  const GRAVEST_FIRST: seq<Reason> := [Denied, Throttled, Error, NoResourceId, UnknownClass, PiDisabled, Cap]

  /** The reason of a is as grave as that of b, or graver, and if it is the same one, a is not named later. */
  predicate NotAfter(rank: Collation, a: NotCovered, b: NotCovered) {
    exists p, q :: 0 <= p <= q < |GRAVEST_FIRST| && GRAVEST_FIRST[p] == a.reason && GRAVEST_FIRST[q] == b.reason
      && (p == q ==> rank(a.resource) <= rank(b.resource))
  }

  lemma PlaceOfReason(reason: Reason)
    ensures ReasonOrder(reason) < 7 && GRAVEST_FIRST[ReasonOrder(reason)] == reason
  {}

  lemma OrderIsByPlace(rank: Collation, a: NotCovered, b: NotCovered)
    requires ReasonLe(rank, a, b)
    ensures NotAfter(rank, a, b)
  {
    hide ReasonOrder;
    PlaceOfReason(a.reason);
    PlaceOfReason(b.reason);
    assert |GRAVEST_FIRST| == 7;
    assert 0 <= ReasonOrder(a.reason) <= ReasonOrder(b.reason) < |GRAVEST_FIRST|;
  }

  /** The rows shown come gravest reason first, and under one reason in the order of their names. */
  lemma ReasonsAreOrdered(instances: seq<Instance>, ask: nat -> Answer, rank: Collation, i: nat, j: nat)
    requires i < j < |Sort(Collected(instances, ask), ByReason(rank))|
    ensures var rows := Sort(Collected(instances, ask), ByReason(rank)); NotAfter(rank, rows[i], rows[j])
  {
    hide Collected, ReasonLe, NotAfter, Sort;
    var rows := Sort(Collected(instances, ask), ByReason(rank));
    ReasonsAreSorted(instances, ask, rank);
    assert ByReason(rank)(rows[i], rows[j]);
    OrderIsByPlace(rank, rows[i], rows[j]);
  }

  /** The rows shown are the instances' reasons, in the order of the reasons. */
  lemma ReasonsAreSorted(instances: seq<Instance>, ask: nat -> Answer, rank: Collation)
    ensures multiset(Sort(Collected(instances, ask), ByReason(rank))) == multiset(UncoveredOf(instances, ask))
    ensures OrderedBy(Sort(Collected(instances, ask), ByReason(rank)), ByReason(rank))
  {
    UncoveredIsCollected(instances, ask);
    ReasonOrderIsTotal(rank);
    SortElements(Collected(instances, ask), ByReason(rank));
    SortOrders(Collected(instances, ask), ByReason(rank));
  }

  // ---- Which reason is whose ----

  /** How many of the instances before the j-th can be asked: the number of its own call, if it can. */
  function CallsBefore(instances: seq<Instance>, j: nat): nat
    requires j <= |instances|
  {
    |set i | 0 <= i < j && instances[i].resourceId.Some? && instances[i].performanceInsights|
  }

  /** Why the j-th instance contributes nothing. */
  predicate IsReason(instances: seq<Instance>, ask: nat -> Answer, j: nat, row: NotCovered)
    requires j < |instances|
  {
    var i := instances[j];
    if i.resourceId == None then row == NotCovered(i.id, NoResourceId, None, None)
    else if !i.performanceInsights then row == NotCovered(i.id, PiDisabled, None, None)
    else if CallsBefore(instances, j) >= 50 then row == NotCovered(i.id, Cap, None, None)
    else
      match ask(CallsBefore(instances, j))
      case Answered(_) => false
      case Refused(reason, code, action) => row == NotCovered(i.id, reason, code, action)
  }

  /** What the j-th instance contributes. */
  predicate IsContribution(instances: seq<Instance>, ask: nat -> Answer, path: Text -> Text, j: nat, list: InstanceKeys)
    requires j < |instances|
  {
    var i := instances[j];
    && i.resourceId.Some? && i.performanceInsights && CallsBefore(instances, j) < 50
    && ask(CallsBefore(instances, j)).Answered?
    && list == InstanceKeys(i.id, path(i.id), ask(CallsBefore(instances, j)).keys)
  }

  lemma CallsStep(instances: seq<Instance>, j: nat)
    requires 0 < j <= |instances|
    ensures var last := instances[j - 1];
      CallsBefore(instances, j)
        == CallsBefore(instances, j - 1) + (if last.resourceId.Some? && last.performanceInsights then 1 else 0)
  {
    var last := instances[j - 1];
    var now := set i | 0 <= i < j && instances[i].resourceId.Some? && instances[i].performanceInsights;
    var before := set i | 0 <= i < j - 1 && instances[i].resourceId.Some? && instances[i].performanceInsights;
    assert now == before + (if last.resourceId.Some? && last.performanceInsights then {j - 1} else {});
  }

  lemma {:induction false} CallsAreEligible(instances: seq<Instance>, j: nat)
    requires j <= |instances|
    ensures CallsBefore(instances, j) == |EligibleOf(instances[..j])|
  {
    if j > 0 {
      hide CallsBefore;
      CallsAreEligible(instances, j - 1);
      CallsStep(instances, j);
      assert instances[..j][..j - 1] == instances[..j - 1];
    } else {
      NoCallsYet(instances);
    }
  }

  lemma NoCallsYet(instances: seq<Instance>)
    ensures CallsBefore(instances, 0) == 0
  {}

  predicate NamedAt(instances: seq<Instance>, ask: nat -> Answer, j: nat, row: NotCovered) {
    j < |instances| && row in Absence(instances[j], |EligibleOf(instances[..j])|, ask)
  }

  predicate ListedAt(instances: seq<Instance>, ask: nat -> Answer, path: Text -> Text, j: nat, list: InstanceKeys) {
    j < |instances| && list in Contribution(instances[j], |EligibleOf(instances[..j])|, ask, path)
  }

  lemma SameBefore(instances: seq<Instance>, n: nat, j: nat)
    requires j < n <= |instances|
    ensures instances[..n][j] == instances[j] && instances[..n][..j] == instances[..j]
  {}

  lemma NoneCovered(ask: nat -> Answer, path: Text -> Text)
    ensures UncoveredOf([], ask) == [] && CoveredOf([], ask, path) == []
  {}

  lemma LastNamed(instances: seq<Instance>, ask: nat -> Answer, row: NotCovered)
    requires instances != []
    ensures var n := |instances| - 1;
      row in UncoveredOf(instances, ask) <==> row in UncoveredOf(instances[..n], ask) || NamedAt(instances, ask, n, row)
  {
    hide Absence, EligibleOf;
  }

  lemma NamedBefore(instances: seq<Instance>, ask: nat -> Answer, n: nat, row: NotCovered)
    requires n <= |instances|
    ensures forall j: nat :: NamedAt(instances[..n], ask, j, row) <==> j < n && NamedAt(instances, ask, j, row)
  {
    hide Absence, EligibleOf;
    forall j: nat | j < n ensures NamedAt(instances[..n], ask, j, row) <==> NamedAt(instances, ask, j, row) {
      SameBefore(instances, n, j);
    }
  }

  lemma {:induction false} UncoveredAre(instances: seq<Instance>, ask: nat -> Answer, row: NotCovered)
    ensures row in UncoveredOf(instances, ask) <==> exists j: nat :: NamedAt(instances, ask, j, row)
  {
    hide *;
    NamedInside(instances, ask, row);
    if instances == [] {
      NoneCovered(ask, x => x);
    } else {
      UncoveredAre(instances[..|instances| - 1], ask, row);
      LastNamed(instances, ask, row);
      NamedBefore(instances, ask, |instances| - 1, row);
    }
  }

  lemma LastListed(instances: seq<Instance>, ask: nat -> Answer, path: Text -> Text, list: InstanceKeys)
    requires instances != []
    ensures list in CoveredOf(instances, ask, path)
       <==> list in CoveredOf(instances[..|instances| - 1], ask, path)
            || ListedAt(instances, ask, path, |instances| - 1, list)
  {
    hide Contribution, EligibleOf;
  }

  lemma ListedBefore(instances: seq<Instance>, ask: nat -> Answer, path: Text -> Text, n: nat, list: InstanceKeys)
    requires n <= |instances|
    ensures forall j: nat :: ListedAt(instances[..n], ask, path, j, list) <==> j < n && ListedAt(instances, ask, path, j, list)
  {
    hide Contribution, EligibleOf;
    forall j: nat | j < n ensures ListedAt(instances[..n], ask, path, j, list) <==> ListedAt(instances, ask, path, j, list) {
      SameBefore(instances, n, j);
    }
  }

  lemma {:induction false} CoveredAre(instances: seq<Instance>, ask: nat -> Answer, path: Text -> Text, list: InstanceKeys)
    ensures list in CoveredOf(instances, ask, path) <==> exists j: nat :: ListedAt(instances, ask, path, j, list)
  {
    hide *;
    ListedInside(instances, ask, path, list);
    if instances == [] {
      NoneCovered(ask, path);
    } else {
      CoveredAre(instances[..|instances| - 1], ask, path, list);
      LastListed(instances, ask, path, list);
      ListedBefore(instances, ask, path, |instances| - 1, list);
    }
  }

  lemma NamedIsReason(instances: seq<Instance>, ask: nat -> Answer, j: nat, row: NotCovered)
    requires j < |instances|
    ensures NamedAt(instances, ask, j, row) <==> IsReason(instances, ask, j, row)
  {
    hide CallsBefore, EligibleOf;
    CallsAreEligible(instances, j);
  }

  lemma ListedIsContribution(instances: seq<Instance>, ask: nat -> Answer, path: Text -> Text, j: nat, list: InstanceKeys)
    requires j < |instances|
    ensures ListedAt(instances, ask, path, j, list) <==> IsContribution(instances, ask, path, j, list)
  {
    hide CallsBefore, EligibleOf;
    CallsAreEligible(instances, j);
  }

  /** The rows shown are exactly the instances' reasons: the first that applies of no resource, no insights, the cap, its call. */
  lemma ReasonsAreTheirs(instances: seq<Instance>, ask: nat -> Answer, rank: Collation, row: NotCovered)
    ensures row in Sort(Collected(instances, ask), ByReason(rank))
       <==> exists j: nat :: j < |instances| && IsReason(instances, ask, j, row)
  {
    hide Collected, IsReason, NamedAt, UncoveredOf, Sort, ByReason;
    var rows := Sort(Collected(instances, ask), ByReason(rank));
    ReasonsAreSorted(instances, ask, rank);
    SameMembership(rows, UncoveredOf(instances, ask), row);
    UncoveredAre(instances, ask, row);
    forall j: nat | j < |instances| ensures NamedAt(instances, ask, j, row) <==> IsReason(instances, ask, j, row) {
      NamedIsReason(instances, ask, j, row);
    }
    NamedInside(instances, ask, row);
  }

  lemma SameMembership<T>(a: seq<T>, b: seq<T>, x: T)
    requires multiset(a) == multiset(b)
    ensures x in a <==> x in b
  {
    assert x in a <==> x in multiset(a);
    assert x in b <==> x in multiset(b);
  }

  lemma NamedInside(instances: seq<Instance>, ask: nat -> Answer, row: NotCovered)
    ensures forall j: nat :: NamedAt(instances, ask, j, row) ==> j < |instances|
  {}

  lemma ListedInside(instances: seq<Instance>, ask: nat -> Answer, path: Text -> Text, list: InstanceKeys)
    ensures forall j: nat :: ListedAt(instances, ask, path, j, list) ==> j < |instances|
  {}

  /** And the lists merged are exactly those of the first fifty that can be asked and answer. */
  lemma ContributionsAreTheirs(instances: seq<Instance>, ask: nat -> Answer, path: Text -> Text, list: InstanceKeys)
    ensures list in CoveredOf(instances, ask, path)
       <==> exists j: nat :: j < |instances| && IsContribution(instances, ask, path, j, list)
  {
    hide IsContribution, ListedAt, CoveredOf;
    CoveredAre(instances, ask, path, list);
    forall j: nat | j < |instances|
      ensures ListedAt(instances, ask, path, j, list) <==> IsContribution(instances, ask, path, j, list)
    {
      ListedIsContribution(instances, ask, path, j, list);
    }
    ListedInside(instances, ask, path, list);
  }

  /** The page names every listed instance exactly once, as covered or not covered, and covers no more than it may ask. */
  lemma EachInstanceCountedOnce(instances: seq<Instance>, ask: nat -> Answer, path: Text -> Text, rank: Collation)
    ensures var notCovered := Sort(Collected(instances, ask), ByReason(rank));
      && Images(CoveredOf(instances, ask, path), ContributorOf) + Images(notCovered, ResourceOf) == Images(instances, IdOf)
      && |CoveredOf(instances, ask, path)| + |notCovered| == |instances|
    ensures |CoveredOf(instances, ask, path)| <= 50
  {
    hide Collected, UncoveredOf, Sort, Images, ByReason, EligibleOf;
    var notCovered := Sort(Collected(instances, ask), ByReason(rank));
    ReasonsAreSorted(instances, ask, rank);
    EachInstanceHasOneFate(instances, ask, path);
    assert |multiset(notCovered)| == |multiset(UncoveredOf(instances, ask))|;
    ImagesOfPermutation(UncoveredOf(instances, ask), notCovered, ResourceOf);
    CoveredIsAnswered(instances, ask, path);
    AnsweredAtMost(Included(EligibleOf(instances), MAX_INSTANCES), ask, path);
  }

  lemma {:induction false} AnsweredAtMost(included: seq<Eligible>, ask: nat -> Answer, path: Text -> Text)
    ensures |AnsweredOf(included, ask, path)| <= |included|
  {
    if included != [] {
      AnsweredAtMost(included[..|included| - 1], ask, path);
    }
  }
}
