/** Sorting a copy, as `Array.prototype.sort` does with a comparator: stable, and the same elements. */
module Sorting {
  import opened Collections

  predicate OrderedBy<T>(s: seq<T>, le: (T, T) -> bool) {
    forall i, j :: 0 <= i < j < |s| ==> le(s[i], s[j])
  }

  ghost predicate TotalPreorder<T(!new)>(le: (T, T) -> bool) {
    && (forall a, b :: le(a, b) || le(b, a))
    && (forall a, b, c :: le(a, b) && le(b, c) ==> le(a, c))
  }

  /** Puts x before the first element it is not greater than. */
  function Insert<T>(x: T, s: seq<T>, le: (T, T) -> bool): (r: seq<T>)
    ensures |r| == |s| + 1
  {
    if s == [] || le(x, s[0]) then [x] + s else [s[0]] + Insert(x, s[1..], le)
  }

  function Sort<T>(s: seq<T>, le: (T, T) -> bool): (r: seq<T>)
    ensures |r| == |s|
  {
    if s == [] then [] else Insert(s[0], Sort(s[1..], le), le)
  }

  lemma {:induction false} InsertElements<T>(x: T, s: seq<T>, le: (T, T) -> bool)
    ensures multiset(Insert(x, s, le)) == multiset(s) + multiset{x}
  {
    if s == [] || le(x, s[0]) {
      ElementsOfConcat([x], s);
    } else {
      InsertElements(x, s[1..], le);
      FirstAndRest(s);
      ElementsOfConcat([s[0]], Insert(x, s[1..], le));
      AddAssociates(multiset{s[0]}, multiset(s[1..]), multiset{x});
    }
  }

  lemma {:induction false} SortElements<T>(s: seq<T>, le: (T, T) -> bool)
    ensures multiset(Sort(s, le)) == multiset(s)
  {
    if s != [] {
      SortElements(s[1..], le);
      InsertElements(s[0], Sort(s[1..], le), le);
      assert s == [s[0]] + s[1..];
    }
  }

  /** What a function makes of the elements. */
  function Images<T, U>(s: seq<T>, f: T -> U): multiset<U> {
    if s == [] then multiset{} else multiset{f(s[0])} + Images(s[1..], f)
  }

  lemma {:induction false} ImagesConcat<T, U>(a: seq<T>, b: seq<T>, f: T -> U)
    ensures Images(a + b, f) == Images(a, f) + Images(b, f)
  {
    if a == [] {
      assert a + b == b;
      AddNothing(Images(b, f));
    } else {
      ConcatRest(a, b);
      ImagesConcat(a[1..], b, f);
      AddAssociates(multiset{f(a[0])}, Images(a[1..], f), Images(b, f));
    }
  }

  lemma ImagesOfNone<T, U>(f: T -> U)
    ensures Images([], f) == multiset{}
  {}

  lemma ImagesOfOne<T, U>(x: T, f: T -> U)
    ensures Images([x], f) == multiset{f(x)}
  {
    assert [x][1..] == [];
    AddNothing(multiset{f(x)});
  }

  lemma {:induction false} ImagesWithout<T, U>(s: seq<T>, i: nat, f: T -> U)
    requires i < |s|
    ensures Images(s, f) == multiset{f(s[i])} + Images(s[..i] + s[i + 1..], f)
  {
    if i == 0 {
      assert s[..0] + s[1..] == s[1..];
    } else {
      WithoutInRest(s, i);
      ImagesWithout(s[1..], i - 1, f);
      AddSwaps(multiset{f(s[0])}, multiset{f(s[i])}, Images((s[..i] + s[i + 1..])[1..], f));
    }
  }

  lemma {:induction false} ImagesOfPermutation<T, U>(a: seq<T>, b: seq<T>, f: T -> U)
    requires multiset(a) == multiset(b)
    ensures Images(a, f) == Images(b, f)
  {
    if a == [] {
      assert |multiset(b)| == 0;
    } else {
      var i := TakenOut(a, b);
      ImagesOfPermutation(a[1..], b[..i] + b[i + 1..], f);
      ImagesWithout(b, i, f);
    }
  }

  lemma {:induction false} InsertImages<T, U>(x: T, s: seq<T>, le: (T, T) -> bool, f: T -> U)
    ensures Images(Insert(x, s, le), f) == multiset{f(x)} + Images(s, f)
  {
    if s == [] || le(x, s[0]) {
      assert ([x] + s)[1..] == s;
    } else {
      InsertImages(x, s[1..], le, f);
      assert Insert(x, s, le)[1..] == Insert(x, s[1..], le);
    }
  }

  lemma {:induction false} SortImages<T, U>(s: seq<T>, le: (T, T) -> bool, f: T -> U)
    ensures Images(Sort(s, le), f) == Images(s, f)
  {
    if s != [] {
      SortImages(s[1..], le, f);
      InsertImages(s[0], Sort(s[1..], le), le, f);
    }
  }

  lemma {:induction false} InsertOrders<T(!new)>(x: T, s: seq<T>, le: (T, T) -> bool)
    requires TotalPreorder(le) && OrderedBy(s, le)
    ensures OrderedBy(Insert(x, s, le), le)
  {
    if !(s == [] || le(x, s[0])) {
      InsertOrders(x, s[1..], le);
      InsertElements(x, s[1..], le);
      var rest := Insert(x, s[1..], le);
      forall j | 0 <= j < |rest| ensures le(s[0], rest[j]) {
        assert rest[j] in multiset(rest);
        assert rest[j] == x || rest[j] in s[1..];
      }
    }
  }

  lemma {:induction false} SortOrders<T(!new)>(s: seq<T>, le: (T, T) -> bool)
    requires TotalPreorder(le)
    ensures OrderedBy(Sort(s, le), le)
  {
    if s != [] {
      SortOrders(s[1..], le);
      InsertOrders(s[0], Sort(s[1..], le), le);
    }
  }

  /** The elements that tie with x, in order. */
  function Ties<T>(s: seq<T>, x: T, le: (T, T) -> bool): seq<T> {
    if s == [] then [] else (if le(s[0], x) && le(x, s[0]) then [s[0]] else []) + Ties(s[1..], x, le)
  }

  lemma TiesCons<T>(y: T, s: seq<T>, x: T, le: (T, T) -> bool)
    ensures Ties([y] + s, x, le) == (if le(y, x) && le(x, y) then [y] else []) + Ties(s, x, le)
  {
    assert ([y] + s)[1..] == s;
  }

  lemma {:induction false} InsertKeepsTies<T(!new)>(y: T, s: seq<T>, x: T, le: (T, T) -> bool)
    requires TotalPreorder(le)
    ensures Ties(Insert(y, s, le), x, le) == Ties([y] + s, x, le)
  {
    hide Ties;
    if !(s == [] || le(y, s[0])) {
      var rest := s[1..];
      InsertKeepsTies(y, rest, x, le);
      TiesCons(s[0], Insert(y, rest, le), x, le);
      TiesCons(y, rest, x, le);
      TiesCons(y, s, x, le);
      FirstThenRest(s);
      TiesCons(s[0], rest, x, le);
      assert !(le(y, x) && le(x, s[0]));
      OnlyOneFirst(if le(s[0], x) && le(x, s[0]) then [s[0]] else [], if le(y, x) && le(x, y) then [y] else [], Ties(rest, x, le));
    }
  }

  lemma OnlyOneFirst<T>(a: seq<T>, b: seq<T>, c: seq<T>)
    requires a == [] || b == []
    ensures a + (b + c) == b + (a + c)
  {}

  /** Elements that tie stay in the order they came in. */
  lemma {:induction false} SortIsStable<T(!new)>(s: seq<T>, x: T, le: (T, T) -> bool)
    requires TotalPreorder(le)
    ensures Ties(Sort(s, le), x, le) == Ties(s, x, le)
  {
    if s != [] {
      SortIsStable(s[1..], x, le);
      InsertKeepsTies(s[0], Sort(s[1..], le), x, le);
      TiesCons(s[0], Sort(s[1..], le), x, le);
    }
  }

  predicate Antisymmetric<T(==)>(s: seq<T>, le: (T, T) -> bool) {
    forall i, j :: 0 <= i < |s| && 0 <= j < |s| && le(s[i], s[j]) && le(s[j], s[i]) ==> s[i] == s[j]
  }

  lemma FirstIsLeast<T>(a: seq<T>, b: seq<T>, le: (T, T) -> bool)
    requires OrderedBy(a, le) && multiset(a) == multiset(b) && a != []
    ensures b != [] && (a[0] == b[0] || le(a[0], b[0]))
  {
    assert a[0] in multiset(b);
    assert b[0] in multiset(a);
  }

  /** Where the order tells elements apart, two ordered lists of the same elements are the same list. */
  lemma {:induction false} OrderedIsUnique<T>(a: seq<T>, b: seq<T>, le: (T, T) -> bool)
    requires OrderedBy(a, le) && OrderedBy(b, le) && multiset(a) == multiset(b) && Antisymmetric(a, le)
    ensures a == b
  {
    assert |multiset(a)| == |multiset(b)|;
    if a != [] {
      FirstIsLeast(a, b, le);
      FirstIsLeast(b, a, le);
      assert b[0] in multiset(a);
      SameRest(a, b);
      OrderedIsUnique(a[1..], b[1..], le);
      FirstThenRest(a);
      FirstThenRest(b);
    }
  }

  // ---- What does not depend on the order ----

  function SumOf<T>(s: seq<T>, f: T -> real): real {
    if s == [] then 0.0 else f(s[0]) + SumOf(s[1..], f)
  }

  lemma {:induction false} SumOfConcat<T>(a: seq<T>, b: seq<T>, f: T -> real)
    ensures SumOf(a + b, f) == SumOf(a, f) + SumOf(b, f)
  {
    if a == [] {
      assert a + b == b;
    } else {
      ConcatRest(a, b);
      SumOfConcat(a[1..], b, f);
    }
  }

  lemma {:induction false} SumOfPermutation<T>(a: seq<T>, b: seq<T>, f: T -> real)
    requires multiset(a) == multiset(b)
    ensures SumOf(a, f) == SumOf(b, f)
  {
    assert |multiset(a)| == |multiset(b)|;
    if a != [] {
      var i := TakenOut(a, b);
      SumOfPermutation(a[1..], b[..i] + b[i + 1..], f);
      SumOfConcat(b[..i], b[i + 1..], f);
      SumOfConcat(b[..i], [b[i]] + b[i + 1..], f);
      assert b == b[..i] + ([b[i]] + b[i + 1..]);
      assert ([b[i]] + b[i + 1..])[1..] == b[i + 1..];
    }
  }

  /** The first of a is somewhere in b, and without it the rest is a permutation again. */
  lemma TakenOut<T>(a: seq<T>, b: seq<T>) returns (i: nat)
    requires a != [] && multiset(a) == multiset(b)
    ensures i < |b| && b[i] == a[0] && multiset(a[1..]) == multiset(b[..i] + b[i + 1..])
  {
    assert a[0] in multiset(b);
    i :| 0 <= i < |b| && b[i] == a[0];
    FirstAndRest(a);
    ElementsWithout(b, i);
    CancelElement(a[0], multiset(a[1..]), multiset(b[..i] + b[i + 1..]));
  }

  lemma {:induction false} OnceEach<T>(s: seq<T>, x: T)
    requires Distinct(s)
    ensures multiset(s)[x] == if x in s then 1 else 0
  {
    if s != [] {
      OnceEach(s[1..], x);
      FirstAndRest(s);
      FirstThenRest(s);
    }
  }

  /** Two lists without repetitions that have the same members are permutations of each other. */
  lemma SameMembers<T>(a: seq<T>, b: seq<T>)
    requires Distinct(a) && Distinct(b) && forall x :: x in a <==> x in b
    ensures multiset(a) == multiset(b)
  {
    forall x ensures multiset(a)[x] == multiset(b)[x] {
      OnceEach(a, x);
      OnceEach(b, x);
    }
  }
}
