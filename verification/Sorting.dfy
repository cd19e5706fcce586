/** A stable sort by descending key: what `Array.prototype.sort` guarantees for such a comparator. */
module Sorting {

  function Insert<T>(key: T -> real, x: T, s: seq<T>): seq<T> {
    if s == [] || key(s[0]) <= key(x) then [x] + s else [s[0]] + Insert(key, x, s[1..])
  }

  function Sort<T>(key: T -> real, s: seq<T>): seq<T> {
    if s == [] then [] else Insert(key, s[0], Sort(key, s[1..]))
  }

  ghost predicate Sorted<T>(key: T -> real, s: seq<T>) {
    forall i, j :: 0 <= i < j < |s| ==> key(s[i]) >= key(s[j])
  }

  /** The elements with the given key, in order. */
  function WithKey<T>(key: T -> real, k: real, s: seq<T>): seq<T> {
    if s == [] then [] else (if key(s[0]) == k then [s[0]] else []) + WithKey(key, k, s[1..])
  }

  lemma {:induction false} InsertMembers<T>(key: T -> real, x: T, s: seq<T>)
    ensures multiset(Insert(key, x, s)) == multiset(s) + multiset{x}
    ensures |Insert(key, x, s)| == |s| + 1
  {
    if s == [] || key(s[0]) <= key(x) {
    } else {
      InsertMembers(key, x, s[1..]);
      assert s == [s[0]] + s[1..];
    }
  }

  lemma {:induction false} InsertSorted<T>(key: T -> real, x: T, s: seq<T>)
    requires Sorted(key, s)
    ensures Sorted(key, Insert(key, x, s))
  {
    if s == [] || key(s[0]) <= key(x) {
    } else {
      InsertSorted(key, x, s[1..]);
      InsertMembers(key, x, s[1..]);
      var rest := Insert(key, x, s[1..]);
      forall j | 0 <= j < |rest| ensures key(s[0]) >= key(rest[j]) {
        assert rest[j] in multiset(rest);
        assert rest[j] == x || rest[j] in s[1..];
      }
    }
  }

  lemma {:induction false} WithKeyCons<T>(key: T -> real, k: real, x: T, s: seq<T>)
    ensures WithKey(key, k, [x] + s) == (if key(x) == k then [x] else []) + WithKey(key, k, s)
  {
    assert ([x] + s)[1..] == s;
  }

  /** The inserted element comes before every element with the same key. */
  lemma {:induction false} InsertStable<T>(key: T -> real, x: T, s: seq<T>, k: real)
    requires Sorted(key, s)
    ensures WithKey(key, k, Insert(key, x, s)) == (if key(x) == k then [x] else []) + WithKey(key, k, s)
  {
    if s == [] || key(s[0]) <= key(x) {
      WithKeyCons(key, k, x, s);
    } else {
      InsertStable(key, x, s[1..], k);
      WithKeyCons(key, k, s[0], Insert(key, x, s[1..]));
      assert Insert(key, x, s) == [s[0]] + Insert(key, x, s[1..]);
      assert s == [s[0]] + s[1..];
      WithKeyCons(key, k, s[0], s[1..]);
      hide WithKey, Insert, Sorted;
    }
  }

  lemma {:induction false} SortCons<T>(key: T -> real, s: seq<T>)
    requires s != []
    ensures Sort(key, s) == Insert(key, s[0], Sort(key, s[1..]))
    ensures multiset(s) == multiset(s[1..]) + multiset{s[0]}
    ensures forall k :: WithKey(key, k, s) == (if key(s[0]) == k then [s[0]] else []) + WithKey(key, k, s[1..])
  {
    assert s == [s[0]] + s[1..];
  }

  lemma {:induction false} SortEmpty<T>(key: T -> real)
    ensures Sort(key, []) == []
  {
  }

  /** Sorting permutes the sequence, orders it, and keeps the order of elements with equal keys. */
  lemma {:induction false} SortCorrect<T>(key: T -> real, s: seq<T>)
    ensures multiset(Sort(key, s)) == multiset(s) && |Sort(key, s)| == |s|
    ensures Sorted(key, Sort(key, s))
    ensures forall k :: WithKey(key, k, Sort(key, s)) == WithKey(key, k, s)
  {
    hide Sort, Insert, WithKey;
    SortEmpty(key);
    if s != [] {
      SortCons(key, s);
      SortCorrect(key, s[1..]);
      InsertMembers(key, s[0], Sort(key, s[1..]));
      InsertSorted(key, s[0], Sort(key, s[1..]));
      hide Sorted;
      forall k ensures WithKey(key, k, Sort(key, s)) == WithKey(key, k, s) {
        InsertStable(key, s[0], Sort(key, s[1..]), k);
      }
    }
  }

  /** Among elements with the same key, earlier ones stand in the relation to later ones. */
  ghost predicate TiesOrdered<T>(key: T -> real, before: (T, T) -> bool, s: seq<T>) {
    forall i, j :: 0 <= i < j < |s| && key(s[i]) == key(s[j]) ==> before(s[i], s[j])
  }

  lemma {:induction false} InsertKeepsOrder<T>(key: T -> real, before: (T, T) -> bool, x: T, s: seq<T>)
    requires Sorted(key, s) && TiesOrdered(key, before, s) && forall y :: y in s ==> before(x, y)
    ensures TiesOrdered(key, before, Insert(key, x, s))
  {
    if s == [] || key(s[0]) <= key(x) {
    } else {
      InsertKeepsOrder(key, before, x, s[1..]);
      var rest := Insert(key, x, s[1..]);
      InsertMembers(key, x, s[1..]);
      forall j | 0 <= j < |rest| && key(s[0]) == key(rest[j]) ensures before(s[0], rest[j]) {
        assert rest[j] in multiset(rest);
        assert rest[j] in s[1..];
        var k :| 0 <= k < |s| - 1 && s[1..][k] == rest[j];
        assert s[k + 1] == rest[j];
      }
    }
  }

  /** When the sequence is ordered by a relation, sorting leaves that order among equal keys. */
  lemma {:induction false} SortKeepsOrder<T>(key: T -> real, before: (T, T) -> bool, s: seq<T>)
    requires forall i, j :: 0 <= i < j < |s| ==> before(s[i], s[j])
    ensures TiesOrdered(key, before, Sort(key, s))
  {
    if s != [] {
      SortKeepsOrder(key, before, s[1..]);
      SortCorrect(key, s[1..]);
      forall y | y in Sort(key, s[1..]) ensures before(s[0], y) {
        SortMembers(key, s[1..], y);
        var k :| 0 <= k < |s| - 1 && s[1..][k] == y;
        assert s[k + 1] == y;
      }
      InsertKeepsOrder(key, before, s[0], Sort(key, s[1..]));
    }
  }

  /** A sorted sequence is left as it is. */
  lemma {:induction false} SortFixed<T>(key: T -> real, s: seq<T>)
    requires Sorted(key, s)
    ensures Sort(key, s) == s
  {
    if s != [] {
      SortFixed(key, s[1..]);
      assert |s| > 1 ==> s[1..][0] == s[1];
    }
  }

  lemma {:induction false} SortMembers<T>(key: T -> real, s: seq<T>, x: T)
    ensures x in Sort(key, s) <==> x in s
  {
    SortCorrect(key, s);
    assert x in multiset(Sort(key, s)) <==> x in multiset(s);
  }

  /** Distinct elements stay distinct. */
  lemma {:induction false} SortDistinct<T>(key: T -> real, s: seq<T>)
    requires forall i, j :: 0 <= i < j < |s| ==> s[i] != s[j]
    ensures forall i, j :: 0 <= i < j < |s| ==> |Sort(key, s)| == |s| && Sort(key, s)[i] != Sort(key, s)[j]
  {
    SortCorrect(key, s);
    var t := Sort(key, s);
    forall i, j | 0 <= i < j < |t| ensures t[i] != t[j] {
      if t[i] == t[j] {
        TwiceInMultiset(t, i, j);
        OnceInMultiset(s, t[i]);
      }
    }
  }

  lemma {:induction false} TwiceInMultiset<T>(t: seq<T>, i: nat, j: nat)
    requires i < j < |t| && t[i] == t[j]
    ensures multiset(t)[t[i]] >= 2
  {
    assert t == t[..i] + [t[i]] + t[i + 1..j] + [t[j]] + t[j + 1..];
    var rest := multiset(t[..i]) + multiset(t[i + 1..j]) + multiset(t[j + 1..]);
    assert multiset(t) == rest + multiset{t[i]} + multiset{t[j]};
  }

  lemma {:induction false} OnceInMultiset<T>(s: seq<T>, x: T)
    requires forall i, j :: 0 <= i < j < |s| ==> s[i] != s[j]
    ensures multiset(s)[x] <= 1
  {
    if s != [] {
      OnceInMultiset(s[1..], x);
      assert s == [s[0]] + s[1..];
      if s[0] == x {
        assert x !in s[1..];
        assert multiset(s[1..])[x] == 0;
      }
    }
  }
}
