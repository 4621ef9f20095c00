/** The stable descending sort that `Array.prototype.sort((a, b) => key(b) - key(a))` performs.
    It is used for model scores, delegation priorities and tool sources. */
module StableSort {

  /** Puts `x`, which stood before all of `s`, in front of the first element with no larger key. */
  function Insert<T>(x: T, s: seq<T>, key: T -> real): seq<T> {
    if s == [] || key(s[0]) <= key(x) then [x] + s else [s[0]] + Insert(x, s[1..], key)
  }

  function SortDescending<T>(s: seq<T>, key: T -> real): seq<T> {
    if s == [] then [] else Insert(s[0], SortDescending(s[1..], key), key)
  }

  ghost predicate Descending<T>(s: seq<T>, key: T -> real) {
    forall i, j :: 0 <= i < j < |s| ==> key(s[i]) >= key(s[j])
  }

  /** The elements of `s` whose key is `k`, in order. */
  ghost function WithKey<T>(s: seq<T>, key: T -> real, k: real): seq<T> {
    if s == [] then []
    else (if key(s[0]) == k then [s[0]] else []) + WithKey(s[1..], key, k)
  }

  /** `b` has the elements of `a`, and those with equal keys in the same order. */
  ghost predicate StableRearrangement<T>(a: seq<T>, b: seq<T>, key: T -> real) {
    forall k :: WithKey(a, key, k) == WithKey(b, key, k)
  }

  lemma {:induction false} InsertKeepsOrder<T>(x: T, s: seq<T>, key: T -> real)
    requires Descending(s, key)
    ensures Descending(Insert(x, s, key), key)
    ensures Insert(x, s, key) != []
    ensures key(Insert(x, s, key)[0]) == if s == [] || key(s[0]) <= key(x) then key(x) else key(s[0])
  {
    if s != [] && !(key(s[0]) <= key(x)) {
      InsertKeepsOrder(x, s[1..], key);
      HeadKeepsOrder(s[0], Insert(x, s[1..], key), key);
    } else {
      HeadKeepsOrder(x, s, key);
    }
  }

  lemma HeadKeepsOrder<T>(x: T, s: seq<T>, key: T -> real)
    requires Descending(s, key) && (s != [] ==> key(s[0]) <= key(x))
    ensures Descending([x] + s, key)
  {
    var r := [x] + s;
    forall i, j | 0 <= i < j < |r| ensures key(r[i]) >= key(r[j]) {
      assert r[j] == s[j - 1];
      if i > 0 { assert r[i] == s[i - 1]; } else { assert key(s[0]) >= key(s[j - 1]); }
    }
  }

  lemma {:induction false} InsertIsStable<T>(x: T, s: seq<T>, key: T -> real, k: real)
    ensures WithKey(Insert(x, s, key), key, k) == WithKey([x] + s, key, k)
  {
    assert ([x] + s)[1..] == s;
    if s != [] && !(key(s[0]) <= key(x)) {
      var r := Insert(x, s[1..], key);
      assert ([s[0]] + r)[1..] == r;
      assert ([x] + s[1..])[1..] == s[1..];
      InsertIsStable(x, s[1..], key, k);
    }
  }

  lemma {:induction false} SortIsDescending<T>(s: seq<T>, key: T -> real)
    ensures Descending(SortDescending(s, key), key)
  {
    if s != [] {
      SortIsDescending(s[1..], key);
      InsertKeepsOrder(s[0], SortDescending(s[1..], key), key);
    }
  }

  lemma {:induction false} SortIsStable<T>(s: seq<T>, key: T -> real, k: real)
    ensures WithKey(SortDescending(s, key), key, k) == WithKey(s, key, k)
  {
    if s != [] {
      var r := SortDescending(s[1..], key);
      SortIsStable(s[1..], key, k);
      InsertIsStable(s[0], r, key, k);
      assert ([s[0]] + r)[1..] == r;
    }
  }

  lemma {:induction false} WithKeyMember<T>(s: seq<T>, key: T -> real, k: real, x: T)
    ensures x in WithKey(s, key, k) <==> x in s && key(x) == k
  {
    if s != [] {
      WithKeyMember(s[1..], key, k, x);
      assert x in s <==> x == s[0] || x in s[1..];
    }
  }

  /** A descending stable rearrangement is unique: the sort is determined by these two facts. */
  lemma {:induction false} StableOrderIsUnique<T>(a: seq<T>, b: seq<T>, key: T -> real)
    requires Descending(a, key) && Descending(b, key) && StableRearrangement(a, b, key)
    ensures a == b
  {
    if a == [] {
      if b != [] {
        FirstAgree(b, a, key);
      }
    } else {
      FirstAgree(a, b, key);
      forall k ensures WithKey(a[1..], key, k) == WithKey(b[1..], key, k) {
        assert WithKey(a, key, k) == WithKey(b, key, k);
        var h := if key(a[0]) == k then [a[0]] else [];
        assert WithKey(a, key, k) == h + WithKey(a[1..], key, k);
        assert WithKey(b, key, k) == h + WithKey(b[1..], key, k);
        assert (h + WithKey(a[1..], key, k))[|h|..] == WithKey(a[1..], key, k);
        assert (h + WithKey(b[1..], key, k))[|h|..] == WithKey(b[1..], key, k);
      }
      StableOrderIsUnique(a[1..], b[1..], key);
    }
  }

  lemma FirstAgree<T>(a: seq<T>, b: seq<T>, key: T -> real)
    requires Descending(a, key) && Descending(b, key) && StableRearrangement(a, b, key) && a != []
    ensures b != [] && a[0] == b[0]
  {
    var k := key(a[0]);
    assert WithKey(a, key, k) == WithKey(b, key, k);
    assert a[0] in a;
    WithKeyMember(a, key, k, a[0]);
    WithKeyMember(b, key, k, a[0]);
    assert a[0] in b;
    var l := key(b[0]);
    assert WithKey(a, key, l) == WithKey(b, key, l);
    assert b[0] in b;
    WithKeyMember(a, key, l, b[0]);
    WithKeyMember(b, key, l, b[0]);
    assert b[0] in a;
    assert k == l;
    assert WithKey(a, key, k)[0] == a[0] && WithKey(b, key, k)[0] == b[0];
  }

  lemma SortMembers<T>(s: seq<T>, key: T -> real, x: T)
    ensures x in SortDescending(s, key) <==> x in s
  {
    var r := SortDescending(s, key);
    SortIsStable(s, key, key(x));
    WithKeyMember(s, key, key(x), x);
    WithKeyMember(r, key, key(x), x);
  }

  lemma {:induction false} InsertPermutes<T>(x: T, s: seq<T>, key: T -> real)
    ensures multiset(Insert(x, s, key)) == multiset([x] + s)
  {
    if s != [] && !(key(s[0]) <= key(x)) {
      InsertPermutes(x, s[1..], key);
      assert s == [s[0]] + s[1..];
    }
  }

  lemma {:induction false} SortPermutes<T>(s: seq<T>, key: T -> real)
    ensures multiset(SortDescending(s, key)) == multiset(s)
    ensures |SortDescending(s, key)| == |s|
  {
    if s != [] {
      SortPermutes(s[1..], key);
      InsertPermutes(s[0], SortDescending(s[1..], key), key);
      assert s == [s[0]] + s[1..];
    }
    assert |multiset(SortDescending(s, key))| == |multiset(s)|;
  }

  /** `x` stands in `s` with the largest key, and everything before it has a smaller one. */
  ghost predicate EarliestMaximum<T>(s: seq<T>, key: T -> real, x: T) {
    exists i :: EarliestMaximumAt(s, key, i) && s[i] == x
  }

  ghost predicate EarliestMaximumAt<T>(s: seq<T>, key: T -> real, i: int) {
    && 0 <= i < |s|
    && (forall j :: 0 <= j < |s| ==> key(s[j]) <= key(s[i]))
    && (forall j :: 0 <= j < i ==> key(s[j]) < key(s[i]))
  }

  /** The sorted sequence starts with the earliest element of maximal key. */
  lemma {:induction false} SortStartsWithEarliestMaximum<T>(s: seq<T>, key: T -> real)
    requires s != []
    ensures SortDescending(s, key) != []
    ensures EarliestMaximum(s, key, SortDescending(s, key)[0])
  {
    var rest := SortDescending(s[1..], key);
    if |s| > 1 {
      SortStartsWithEarliestMaximum(s[1..], key);
      var i :| EarliestMaximumAt(s[1..], key, i) && s[1..][i] == rest[0];
      assert forall j :: 0 < j < |s| ==> s[j] == s[1..][j - 1];
      if key(rest[0]) <= key(s[0]) {
        assert EarliestMaximumAt(s, key, 0);
      } else {
        assert EarliestMaximumAt(s, key, i + 1);
      }
    } else {
      assert EarliestMaximumAt(s, key, 0);
    }
  }

  // ----- Filtering a sorted sequence ------------------------------------------------------

  /** `s.filter(p)` */
  function Filter<T(!new)>(s: seq<T>, p: T -> bool): (r: seq<T>)
    ensures forall x :: x in r <==> x in s && p(x)
    ensures |r| <= |s|
  {
    if s == [] then []
    else if p(s[0]) then [s[0]] + Filter(s[1..], p)
    else Filter(s[1..], p)
  }

  lemma {:induction false} FilterKeepsOrder<T(!new)>(s: seq<T>, p: T -> bool, key: T -> real)
    requires Descending(s, key)
    ensures Descending(Filter(s, p), key)
  {
    if s != [] {
      FilterKeepsOrder(s[1..], p, key);
      if p(s[0]) {
        var r := Filter(s[1..], p);
        if r != [] {
          assert r[0] in r;
        }
        HeadKeepsOrder(s[0], r, key);
      }
    }
  }

  lemma {:induction false} WithKeyOfFilter<T(!new)>(s: seq<T>, p: T -> bool, key: T -> real, k: real)
    ensures WithKey(Filter(s, p), key, k) == Filter(WithKey(s, key, k), p)
  {
    if s != [] {
      WithKeyOfFilter(s[1..], p, key, k);
      var rest := WithKey(s[1..], key, k);
      var kept := Filter(s[1..], p);
      assert ([s[0]] + rest)[1..] == rest && ([s[0]] + kept)[1..] == kept;
      assert WithKey(s, key, k) == if key(s[0]) == k then [s[0]] + rest else rest;
      assert Filter([s[0]] + rest, p) == if p(s[0]) then [s[0]] + Filter(rest, p) else Filter(rest, p);
      assert WithKey([s[0]] + kept, key, k)
          == if key(s[0]) == k then [s[0]] + WithKey(kept, key, k) else WithKey(kept, key, k);
    }
  }

  /** Sorting and then filtering is filtering and then sorting. */
  lemma SortCommutesWithFilter<T(!new)>(s: seq<T>, p: T -> bool, key: T -> real)
    ensures Filter(SortDescending(s, key), p) == SortDescending(Filter(s, p), key)
  {
    var a := Filter(SortDescending(s, key), p);
    var b := SortDescending(Filter(s, p), key);
    SortIsDescending(s, key);
    FilterKeepsOrder(SortDescending(s, key), p, key);
    SortIsDescending(Filter(s, p), key);
    forall k ensures WithKey(a, key, k) == WithKey(b, key, k) {
      WithKeyOfFilter(SortDescending(s, key), p, key, k);
      SortIsStable(s, key, k);
      WithKeyOfFilter(s, p, key, k);
      SortIsStable(Filter(s, p), key, k);
    }
    StableOrderIsUnique(a, b, key);
  }

  /** A scan finds the first element of the filtered sequence. */
  lemma {:induction false} FirstOfFilter<T(!new)>(s: seq<T>, p: T -> bool, i: nat)
    requires i < |s| && p(s[i]) && forall j :: 0 <= j < i ==> !p(s[j])
    ensures Filter(s, p) != [] && Filter(s, p)[0] == s[i]
  {
    if i > 0 {
      FirstOfFilter(s[1..], p, i - 1);
    }
  }

  lemma {:induction false} FilterTwice<T(!new)>(s: seq<T>, p: T -> bool, q: T -> bool, both: T -> bool)
    requires forall x :: both(x) <==> p(x) && q(x)
    ensures Filter(Filter(s, p), q) == Filter(s, both)
  {
    if s != [] {
      FilterTwice(s[1..], p, q, both);
    }
  }

  /** What is kept starts with the first element that passes. */
  lemma {:induction false} FirstPassing<T(!new)>(s: seq<T>, p: T -> bool)
    requires Filter(s, p) != []
    ensures exists i :: 0 <= i < |s| && p(s[i]) && s[i] == Filter(s, p)[0] && forall j :: 0 <= j < i ==> !p(s[j])
  {
    if !p(s[0]) {
      FirstPassing(s[1..], p);
      var i :| 0 <= i < |s[1..]| && p(s[1..][i]) && s[1..][i] == Filter(s, p)[0]
        && forall j :: 0 <= j < i ==> !p(s[1..][j]);
      forall j | 0 <= j < i + 1 ensures !p(s[j]) {
        if j > 0 { assert s[j] == s[1..][j - 1]; }
      }
      assert s[i + 1] == Filter(s, p)[0];
    }
  }

  /** Of the elements of `s` that pass, the i-th has the maximal key and is the earliest of that key. */
  ghost predicate EarliestPassing<T(!new)>(s: seq<T>, p: T -> bool, key: T -> real, i: int) {
    && 0 <= i < |s| && p(s[i])
    && (forall j :: 0 <= j < |s| && p(s[j]) ==> key(s[j]) <= key(s[i]))
    && (forall j :: 0 <= j < i && p(s[j]) ==> key(s[j]) < key(s[i]))
  }

  /** The earliest maximum of what is kept is the earliest passing maximum of the whole. */
  lemma FilterKeepsEarliest<T(!new)>(s: seq<T>, p: T -> bool, key: T -> real, k: int)
    requires EarliestMaximumAt(Filter(s, p), key, k)
    ensures exists i :: EarliestPassing(s, p, key, i) && s[i] == Filter(s, p)[k]
  {
    var kept := Filter(s, p);
    var top := key(kept[k]);
    var highest := (x: T) => key(x) == top;
    var both := (x: T) => p(x) && highest(x);
    FirstOfFilter(kept, highest, k);
    FilterTwice(s, p, highest, both);
    FirstPassing(s, both);
    var i :| 0 <= i < |s| && both(s[i]) && s[i] == kept[k] && forall j :: 0 <= j < i ==> !both(s[j]);
    forall j | 0 <= j < |s| && p(s[j]) ensures key(s[j]) <= key(s[i]) && (j < i ==> key(s[j]) < key(s[i])) {
      assert s[j] in kept;
      var l :| 0 <= l < |kept| && kept[l] == s[j];
      assert j < i ==> !both(s[j]);
    }
    assert EarliestPassing(s, p, key, i);
  }
}
