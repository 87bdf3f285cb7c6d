/** The stable sort that every view applies to a snapshot (`Array.prototype.sort`
    with a numeric comparator), written once over an integer sort key.
    A descending sort is the ascending sort on the negated key. */
module Sorting {

  /** Non-decreasing by `key`. */
  ghost predicate SortedBy<T>(s: seq<T>, key: T -> int) {
    forall i, j :: 0 <= i < j < |s| ==> key(s[i]) <= key(s[j])
  }

  /** The subsequence of `s` whose key is `k`, in the order of `s`. Two
      sequences with the same `WithKey` for every `k` keep ties in the same
      relative order: this is how stability is stated. */
  function WithKey<T>(s: seq<T>, key: T -> int, k: int): seq<T> {
    if s == [] then []
    else (if key(s[0]) == k then [s[0]] else []) + WithKey(s[1..], key, k)
  }

  /** Inserts `x` in front of every element whose key is not smaller. */
  function Insert<T(==)>(x: T, s: seq<T>, key: T -> int): (r: seq<T>)
    ensures |r| == |s| + 1
    ensures multiset(r) == multiset(s) + multiset{x}
  {
    if s == [] || key(x) <= key(s[0]) then [x] + s
    else
      assert s == [s[0]] + s[1..];
      [s[0]] + Insert(x, s[1..], key)
  }

  /** A head no larger than every key of a sorted tail extends it. */
  lemma ConsSorted<T>(h: T, t: seq<T>, key: T -> int)
    requires SortedBy(t, key)
    requires forall j :: 0 <= j < |t| ==> key(h) <= key(t[j])
    ensures SortedBy([h] + t, key)
  {
    var r := [h] + t;
    forall i, j | 0 <= i < j < |r| ensures key(r[i]) <= key(r[j]) {
      assert r[j] == t[j - 1];
      if i > 0 {
        assert r[i] == t[i - 1];
      }
    }
  }

  /** Every element of `Insert(x, s)` is `x` or an element of `s`. */
  lemma InsertMember<T>(x: T, s: seq<T>, key: T -> int, j: int)
    requires 0 <= j < |Insert(x, s, key)|
    ensures Insert(x, s, key)[j] == x || exists m :: 0 <= m < |s| && s[m] == Insert(x, s, key)[j]
  {
    var r := Insert(x, s, key);
    assert r[j] in multiset(r);
    if r[j] != x {
      assert r[j] in multiset(s);
    }
  }

  lemma {:induction false} InsertSorted<T>(x: T, s: seq<T>, key: T -> int)
    requires SortedBy(s, key)
    ensures SortedBy(Insert(x, s, key), key)
  {
    if s == [] || key(x) <= key(s[0]) {
      ConsSorted(x, s, key);
    } else {
      var tail := s[1..];
      var rest := Insert(x, tail, key);
      InsertSorted(x, tail, key);
      forall j | 0 <= j < |rest| ensures key(s[0]) <= key(rest[j]) {
        InsertMember(x, tail, key, j);
        if rest[j] != x {
          var m :| 0 <= m < |tail| && tail[m] == rest[j];
          assert s[1 + m] == rest[j];
        }
      }
      ConsSorted(s[0], rest, key);
    }
  }

  /** Stable insertion sort: the result is ordered by `key` and is a
      permutation of `s`; `SortStable` shows that elements with equal keys
      stay in the order of `s`. */
  function SortBy<T(==)>(s: seq<T>, key: T -> int): (r: seq<T>)
    ensures |r| == |s|
    ensures multiset(r) == multiset(s)
    ensures SortedBy(r, key)
  {
    if s == [] then []
    else
      assert s == [s[0]] + s[1..];
      var rest := SortBy(s[1..], key);
      InsertSorted(s[0], rest, key);
      Insert(s[0], rest, key)
  }

  /** The first index of `s` whose key is smallest: an independent reference
      for the head of the sorted sequence. */
  function FirstMinIndex<T>(s: seq<T>, key: T -> int): (i: nat)
    requires |s| > 0
    ensures i < |s|
    ensures forall j :: 0 <= j < |s| ==> key(s[i]) <= key(s[j])
    ensures forall j :: 0 <= j < i ==> key(s[i]) < key(s[j])
  {
    if |s| == 1 then 0
    else
      var k := FirstMinIndex(s[1..], key);
      if key(s[0]) <= key(s[1 + k]) then 0 else 1 + k
  }

  /** Sorting keeps, for every key, the subsequence carrying that key. */
  lemma {:induction false} InsertWithKey<T>(x: T, s: seq<T>, key: T -> int, k: int)
    ensures WithKey(Insert(x, s, key), key, k)
         == (if key(x) == k then [x] else []) + WithKey(s, key, k)
  {
    var mine := if key(x) == k then [x] else [];
    if s == [] || key(x) <= key(s[0]) {
      assert ([x] + s)[1..] == s;
      assert WithKey([x] + s, key, k) == mine + WithKey(s, key, k);
    } else {
      var rest := Insert(x, s[1..], key);
      var first := if key(s[0]) == k then [s[0]] else [];
      assert ([s[0]] + rest)[1..] == rest;
      InsertWithKey(x, s[1..], key, k);
      assert WithKey([s[0]] + rest, key, k) == first + (mine + WithKey(s[1..], key, k));
      assert WithKey(s, key, k) == first + WithKey(s[1..], key, k);
      assert first + (mine + WithKey(s[1..], key, k)) == mine + (first + WithKey(s[1..], key, k));
    }
  }

  lemma {:induction false} SortStable<T>(s: seq<T>, key: T -> int, k: int)
    ensures WithKey(SortBy(s, key), key, k) == WithKey(s, key, k)
  {
    if s != [] {
      SortStable(s[1..], key, k);
      InsertWithKey(s[0], SortBy(s[1..], key), key, k);
    }
  }

  /** The head of the stable sort is the first element of `s` with the
      smallest key (ties go to the element met first). */
  lemma {:induction false} SortHeadIsFirstMin<T>(s: seq<T>, key: T -> int)
    requires |s| > 0
    ensures SortBy(s, key)[0] == s[FirstMinIndex(s, key)]
  {
    if |s| > 1 {
      SortHeadIsFirstMin(s[1..], key);
    }
  }

  /** The last element of the sort carries the largest key of `s`. */
  lemma SortLastIsMax<T>(s: seq<T>, key: T -> int)
    requires |s| > 0
    ensures forall j :: 0 <= j < |s| ==> key(s[j]) <= key(SortBy(s, key)[|s| - 1])
  {
    var r := SortBy(s, key);
    forall j | 0 <= j < |s| ensures key(s[j]) <= key(r[|s| - 1]) {
      assert s[j] in multiset(r);
      var m :| 0 <= m < |r| && r[m] == s[j];
    }
  }

  /** Two key-sorted sequences that agree on the subsequence of every key are
      equal: a stable sort has only one possible result, so the insertion
      sort stands for whichever stable algorithm the runtime uses. */
  lemma {:induction false} SortedWithSameKeysEqual<T>(a: seq<T>, b: seq<T>, key: T -> int)
    requires SortedBy(a, key) && SortedBy(b, key)
    requires forall k :: WithKey(a, key, k) == WithKey(b, key, k)
    ensures a == b
  {
    if a == [] || b == [] {
      HeadKeyOccurs(a, key);
      HeadKeyOccurs(b, key);
    } else {
      WithKeyOfSortedMember(a, key, key(b[0]));
      WithKeyOfSortedMember(b, key, key(a[0]));
      var k0 := key(a[0]);
      assert key(b[0]) == k0;
      assert WithKey(a, key, k0) == [a[0]] + WithKey(a[1..], key, k0);
      assert WithKey(b, key, k0) == [b[0]] + WithKey(b[1..], key, k0);
      assert a[0] == WithKey(a, key, k0)[0] == WithKey(b, key, k0)[0] == b[0];
      forall k ensures WithKey(a[1..], key, k) == WithKey(b[1..], key, k) {
        var head := if key(a[0]) == k then [a[0]] else [];
        assert WithKey(a, key, k) == head + WithKey(a[1..], key, k);
        assert WithKey(b, key, k) == head + WithKey(b[1..], key, k);
        assert WithKey(a, key, k) == WithKey(b, key, k);
        assert WithKey(a[1..], key, k) == (head + WithKey(a[1..], key, k))[|head|..];
        assert WithKey(b[1..], key, k) == (head + WithKey(b[1..], key, k))[|head|..];
      }
      SortedWithSameKeysEqual(a[1..], b[1..], key);
      assert a == [a[0]] + a[1..] && b == [b[0]] + b[1..];
    }
  }

  lemma HeadKeyOccurs<T>(s: seq<T>, key: T -> int)
    ensures s != [] ==> WithKey(s, key, key(s[0])) != []
  {
  }

  /** In a sorted sequence, a key that occurs at all is no smaller than the
      first key. */
  lemma {:induction false} WithKeyOfSortedMember<T>(s: seq<T>, key: T -> int, k: int)
    requires SortedBy(s, key) && s != [] && WithKey(s, key, k) != []
    ensures key(s[0]) <= k
  {
    if key(s[0]) != k {
      assert WithKey(s, key, k) == WithKey(s[1..], key, k);
      WithKeyOccurs(s[1..], key, k);
      var i :| 0 <= i < |s[1..]| && key(s[1..][i]) == k;
      assert key(s[0]) <= key(s[1 + i]);
    }
  }

  /** A non-empty `WithKey` witnesses an element with that key. */
  lemma {:induction false} WithKeyOccurs<T>(s: seq<T>, key: T -> int, k: int)
    requires WithKey(s, key, k) != []
    ensures exists i :: 0 <= i < |s| && key(s[i]) == k
  {
    if key(s[0]) != k {
      WithKeyOccurs(s[1..], key, k);
      var i :| 0 <= i < |s[1..]| && key(s[1..][i]) == k;
      assert key(s[1 + i]) == k;
    }
  }

  /** Any sort that is ordered, and keeps the order of equal keys, yields
      `SortBy`. */
  lemma StableSortIsUnique<T>(s: seq<T>, r: seq<T>, key: T -> int)
    requires SortedBy(r, key)
    requires forall k :: WithKey(r, key, k) == WithKey(s, key, k)
    ensures r == SortBy(s, key)
  {
    forall k ensures WithKey(r, key, k) == WithKey(SortBy(s, key), key, k) {
      SortStable(s, key, k);
    }
    SortedWithSameKeysEqual(r, SortBy(s, key), key);
  }

  /** `WithKey` keeps exactly the occurrences whose key is `k`, so its
      multiset depends only on the multiset of `s`. */
  lemma {:induction false} WithKeyMultiset<T>(s: seq<T>, key: T -> int, k: int)
    ensures forall x :: multiset(WithKey(s, key, k))[x] == if key(x) == k then multiset(s)[x] else 0
  {
    if s != [] {
      WithKeyMultiset(s[1..], key, k);
      assert s == [s[0]] + s[1..];
      assert multiset(s) == multiset{s[0]} + multiset(s[1..]);
    }
  }

  lemma MultisetExtensional<T>(p: multiset<T>, q: multiset<T>)
    requires forall x :: p[x] == q[x]
    ensures p == q
  {
  }

  /** Two arrangements of the same elements carry every key equally often. */
  lemma SameMultisetSameKeyCounts<T>(a: seq<T>, b: seq<T>, key: T -> int, k: int)
    requires multiset(a) == multiset(b)
    ensures multiset(WithKey(a, key, k)) == multiset(WithKey(b, key, k))
    ensures |WithKey(a, key, k)| == |WithKey(b, key, k)|
  {
    var wa, wb := WithKey(a, key, k), WithKey(b, key, k);
    WithKeyMultiset(a, key, k);
    WithKeyMultiset(b, key, k);
    forall x ensures multiset(wa)[x] == multiset(wb)[x] {
      assert multiset(a)[x] == multiset(b)[x];
    }
    MultisetExtensional(multiset(wa), multiset(wb));
  }

  /** Two key-sorted sequences that carry every key equally often have the
      same key at every position. */
  lemma {:induction false} SortedWithSameKeyCountsSameKeys<T>(a: seq<T>, b: seq<T>, key: T -> int)
    requires SortedBy(a, key) && SortedBy(b, key)
    requires forall k :: |WithKey(a, key, k)| == |WithKey(b, key, k)|
    ensures |a| == |b|
    ensures forall i :: 0 <= i < |a| ==> key(a[i]) == key(b[i])
  {
    HeadKeyOccurs(a, key);
    HeadKeyOccurs(b, key);
    if a != [] && b != [] {
      WithKeyOfSortedMember(a, key, key(b[0]));
      WithKeyOfSortedMember(b, key, key(a[0]));
      forall k ensures |WithKey(a[1..], key, k)| == |WithKey(b[1..], key, k)| {
        assert |WithKey(a, key, k)| == (if key(a[0]) == k then 1 else 0) + |WithKey(a[1..], key, k)|;
        assert |WithKey(b, key, k)| == (if key(b[0]) == k then 1 else 0) + |WithKey(b[1..], key, k)|;
      }
      SortedWithSameKeyCountsSameKeys(a[1..], b[1..], key);
      forall i | 0 < i < |a| ensures key(a[i]) == key(b[i]) {
        assert a[1..][i - 1] == a[i] && b[1..][i - 1] == b[i];
      }
    }
  }

  /** The keys of the sorted sequence, position by position, do not depend on
      the order of the input: only on its elements. */
  lemma SortKeysIgnoreInputOrder<T>(a: seq<T>, b: seq<T>, key: T -> int)
    requires multiset(a) == multiset(b)
    ensures |SortBy(a, key)| == |SortBy(b, key)|
    ensures forall i :: 0 <= i < |SortBy(a, key)| ==> key(SortBy(a, key)[i]) == key(SortBy(b, key)[i])
  {
    forall k ensures |WithKey(SortBy(a, key), key, k)| == |WithKey(SortBy(b, key), key, k)| {
      SortStable(a, key, k);
      SortStable(b, key, k);
      SameMultisetSameKeyCounts(a, b, key, k);
    }
    SortedWithSameKeyCountsSameKeys(SortBy(a, key), SortBy(b, key), key);
  }

  /** With pairwise distinct keys, every key is carried by at most one
      element. */
  lemma {:induction false} DistinctKeysAtMostOne<T>(s: seq<T>, key: T -> int, k: int)
    requires forall i, j :: 0 <= i < j < |s| ==> key(s[i]) != key(s[j])
    ensures |WithKey(s, key, k)| <= 1
  {
    if s != [] {
      DistinctKeysAtMostOne(s[1..], key, k);
      if key(s[0]) == k && WithKey(s[1..], key, k) != [] {
        WithKeyOccurs(s[1..], key, k);
      }
    }
  }

  /** With pairwise distinct keys the sort does not depend on the order of
      the input at all. */
  lemma SortIgnoresInputOrderForDistinctKeys<T>(a: seq<T>, b: seq<T>, key: T -> int)
    requires multiset(a) == multiset(b)
    requires forall i, j :: 0 <= i < j < |a| ==> key(a[i]) != key(a[j])
    ensures SortBy(a, key) == SortBy(b, key)
  {
    forall k ensures WithKey(SortBy(a, key), key, k) == WithKey(SortBy(b, key), key, k) {
      SortStable(a, key, k);
      SortStable(b, key, k);
      SameMultisetSameKeyCounts(a, b, key, k);
      DistinctKeysAtMostOne(a, key, k);
      var wa, wb := WithKey(a, key, k), WithKey(b, key, k);
      if |wa| == 1 {
        assert wa == [wa[0]] && wb == [wb[0]];
        assert wa[0] in multiset(wb);
      }
    }
    SortedWithSameKeysEqual(SortBy(a, key), SortBy(b, key), key);
  }
}
