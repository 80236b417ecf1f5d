/** Grouping by a key into an insertion-ordered map: keys by first appearance, each with its items in order. */
module Grouping {
  import opened Collections

  function Members<T, K(==)>(items: seq<T>, key: T -> K, k: K): seq<T> {
    if items == [] then []
    else
      var last := items[|items| - 1];
      var before := Members(items[..|items| - 1], key, k);
      if key(last) == k then before + [last] else before
  }

  /** The keys in the order of their first items. */
  function Firsts<T, K(==)>(items: seq<T>, key: T -> K): seq<K> {
    if items == [] then []
    else
      var before, last := Firsts(items[..|items| - 1], key), items[|items| - 1];
      if key(last) in before then before else before + [key(last)]
  }

  /** The groups of the first n keys, one after another. */
  function Flattened<T, K(==)>(items: seq<T>, key: T -> K, keys: seq<K>, n: nat): seq<T>
    requires n <= |keys|
  {
    if n == 0 then [] else Flattened(items, key, keys, n - 1) + Members(items, key, keys[n - 1])
  }

  lemma MembersStep<T, K>(items: seq<T>, x: T, key: T -> K, k: K)
    ensures Members(items + [x], key, k) == if key(x) == k then Members(items, key, k) + [x] else Members(items, key, k)
  {
    assert (items + [x])[..|items|] == items;
  }

  lemma FirstsStep<T, K>(items: seq<T>, x: T, key: T -> K)
    ensures Firsts(items + [x], key) == if key(x) in Firsts(items, key) then Firsts(items, key) else Firsts(items, key) + [key(x)]
  {
    assert (items + [x])[..|items|] == items;
  }

  lemma {:induction false} FirstsAreDistinct<T, K>(items: seq<T>, key: T -> K)
    ensures Distinct(Firsts(items, key))
  {
    if items != [] {
      FirstsAreDistinct(items[..|items| - 1], key);
    }
  }

  lemma {:induction false} PlacedIffKept<T, K>(items: seq<T>, key: T -> K, k: K)
    ensures k in Firsts(items, key) <==> exists i :: 0 <= i < |items| && key(items[i]) == k
  {
    if items != [] {
      var n := |items| - 1;
      PlacedIffKept(items[..n], key, k);
      if i :| 0 <= i < n && key(items[i]) == k {
        assert items[..n][i] == items[i];
      }
      if key(items[n]) == k {
        assert k in Firsts(items, key);
      }
    }
  }

  /** Of two keys the one placed earlier has an item before any item of the other. */
  lemma {:induction false} FirstsAreInOrder<T, K>(items: seq<T>, key: T -> K, p: nat, q: nat) returns (i: nat)
    requires p < q < |Firsts(items, key)|
    ensures i < |items| && key(items[i]) == Firsts(items, key)[p]
    ensures forall j :: 0 <= j <= i ==> key(items[j]) != Firsts(items, key)[q]
  {
    var n := |items| - 1;
    var before := Firsts(items[..n], key);
    if q < |before| {
      i := FirstsAreInOrder(items[..n], key, p, q);
    } else {
      PlacedIffKept(items[..n], key, before[p]);
      PlacedIffKept(items[..n], key, key(items[n]));
      i :| 0 <= i < n && key(items[..n][i]) == before[p];
      forall j | 0 <= j <= i ensures key(items[j]) != key(items[n]) {
        assert items[..n][j] == items[j];
      }
    }
  }

  /** A key has a place exactly when it has items, and its group holds exactly the items with that key. */
  lemma {:induction false} GroupsHoldTheirKey<T, K>(items: seq<T>, key: T -> K, k: K)
    ensures k in Firsts(items, key) <==> Members(items, key, k) != []
    ensures forall x :: x in Members(items, key, k) <==> x in items && key(x) == k
  {
    if items != [] {
      var before, last := items[..|items| - 1], items[|items| - 1];
      assert items == before + [last];
      GroupsHoldTheirKey(before, key, k);
      MembersStep(before, last, key, k);
      FirstsStep(before, last, key);
    }
  }

  function Once<T>(b: bool, x: T): multiset<T> {
    if b then multiset{x} else multiset{}
  }

  lemma MembersElements<T, K>(items: seq<T>, x: T, key: T -> K, k: K)
    ensures multiset(Members(items + [x], key, k)) == multiset(Members(items, key, k)) + Once(key(x) == k, x)
  {
    MembersStep(items, x, key, k);
    ElementsOfConcat(Members(items, key, k), [x]);
  }

  lemma FlattenedElements<T, K>(items: seq<T>, key: T -> K, keys: seq<K>, n: nat)
    requires n < |keys|
    ensures multiset(Flattened(items, key, keys, n + 1))
         == multiset(Flattened(items, key, keys, n)) + multiset(Members(items, key, keys[n]))
  {
    ElementsOfConcat(Flattened(items, key, keys, n), Members(items, key, keys[n]));
  }

  lemma OnceAmong<T, K>(keys: seq<K>, n: nat, k: K, x: T)
    requires Distinct(keys) && 0 < n <= |keys|
    ensures Once(k in keys[..n], x) == Once(k in keys[..n - 1], x) + Once(k == keys[n - 1], x)
  {
    TakeOneMore(keys, n - 1);
  }

  /** One more item is found once, in its key's group, if that key is among the first n. */
  lemma {:induction false} FlattenedStep<T, K>(items: seq<T>, x: T, key: T -> K, keys: seq<K>, n: nat)
    requires Distinct(keys) && n <= |keys|
    ensures multiset(Flattened(items + [x], key, keys, n))
         == multiset(Flattened(items, key, keys, n)) + Once(key(x) in keys[..n], x)
  {
    if n > 0 {
      FlattenedStep(items, x, key, keys, n - 1);
      FlattenedElements(items, key, keys, n - 1);
      FlattenedElements(items + [x], key, keys, n - 1);
      MembersElements(items, x, key, keys[n - 1]);
      OnceAmong(keys, n, key(x), x);
      AddBoth(multiset(Flattened(items, key, keys, n - 1)), multiset(Members(items, key, keys[n - 1])),
        Once(key(x) in keys[..n - 1], x), Once(key(x) == keys[n - 1], x));
    }
  }

  lemma {:induction false} NoMembers<T, K>(items: seq<T>, key: T -> K, k: K)
    requires forall j :: 0 <= j < |items| ==> key(items[j]) != k
    ensures Members(items, key, k) == []
  {
    if items != [] {
      NoMembers(items[..|items| - 1], key, k);
    }
  }

  /** A group begins with the first item that has its key. */
  lemma {:induction false} GroupBeginsWithFirst<T, K>(items: seq<T>, key: T -> K, i: nat)
    requires i < |items| && forall j :: 0 <= j < i ==> key(items[j]) != key(items[i])
    ensures Members(items, key, key(items[i])) != [] && Members(items, key, key(items[i]))[0] == items[i]
  {
    var n := |items| - 1;
    if i < n {
      GroupBeginsWithFirst(items[..n], key, i);
    } else {
      NoMembers(items[..n], key, key(items[i]));
    }
  }

  /** The groups themselves, in the order of their keys. */
  function Groups<T, K(==)>(items: seq<T>, key: T -> K): (r: seq<seq<T>>)
    ensures |r| == |Firsts(items, key)|
    ensures forall i :: 0 <= i < |r| ==> r[i] == Members(items, key, Firsts(items, key)[i])
  {
    seq(|Firsts(items, key)|, i requires 0 <= i < |Firsts(items, key)| => Members(items, key, Firsts(items, key)[i]))
  }

  lemma GroupsAreInhabited<T, K>(items: seq<T>, key: T -> K)
    ensures forall i :: 0 <= i < |Groups(items, key)| ==> Groups(items, key)[i] != []
  {
    forall i | 0 <= i < |Groups(items, key)| ensures Groups(items, key)[i] != [] {
      GroupsHoldTheirKey(items, key, Firsts(items, key)[i]);
    }
  }

  lemma {:induction false} FlattenedPrefix<T, K>(items: seq<T>, key: T -> K, keys: seq<K>, more: seq<K>, n: nat)
    requires n <= |keys|
    ensures Flattened(items, key, keys + more, n) == Flattened(items, key, keys, n)
  {
    if n > 0 {
      FlattenedPrefix(items, key, keys, more, n - 1);
    }
  }

  function All<T, K(==)>(items: seq<T>, key: T -> K): seq<T> {
    Flattened(items, key, Firsts(items, key), |Firsts(items, key)|)
  }

  lemma PartitionGrows<T, K>(before: seq<T>, last: T, key: T -> K)
    ensures multiset(All(before + [last], key)) == multiset(All(before, key)) + multiset{last}
  {
    var keys := Firsts(before, key);
    FirstsAreDistinct(before, key);
    FirstsStep(before, last, key);
    FlattenedStep(before, last, key, keys, |keys|);
    assert keys[..|keys|] == keys;
    if key(last) !in keys {
      GroupsHoldTheirKey(before, key, key(last));
      MembersElements(before, last, key, key(last));
      FlattenedPrefix(before + [last], key, keys, [key(last)], |keys|);
      FlattenedElements(before + [last], key, keys + [key(last)], |keys|);
    }
  }

  /** Grouping loses nothing and repeats nothing: the groups together hold exactly the items. */
  lemma {:induction false} GroupsPartition<T, K>(items: seq<T>, key: T -> K)
    ensures multiset(All(items, key)) == multiset(items)
  {
    if items != [] {
      var before, last := items[..|items| - 1], items[|items| - 1];
      assert items == before + [last];
      GroupsPartition(before, key);
      PartitionGrows(before, last, key);
    }
  }
}
