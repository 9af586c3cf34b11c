/**
 * Array.prototype.sort, which ECMAScript 2019 and later require to be
 * stable, as an insertion sort over a "may come first" relation `le`.
 * The comparator `(a, b) => c(a, b)` of the application corresponds to
 * `le(a, b) <==> c(a, b) <= 0`.
 */
module Sorting {
  /** `le` is total and transitive: the comparators used are consistent. */
  ghost predicate TotalPreorder<T(!new)>(le: (T, T) -> bool) {
    (forall a, b :: le(a, b) || le(b, a))
    && (forall a, b, c :: le(a, b) && le(b, c) ==> le(a, c))
  }

  predicate SortedBy<T>(s: seq<T>, le: (T, T) -> bool) {
    forall i, j :: 0 <= i < j < |s| ==> le(s[i], s[j])
  }

  /** `a` and `b` compare equal. */
  predicate Tied<T>(le: (T, T) -> bool, a: T, b: T) {
    le(a, b) && le(b, a)
  }

  /** The elements of `s` that compare equal to `k`, in order. */
  function TiedWith<T>(s: seq<T>, le: (T, T) -> bool, k: T): seq<T> {
    if s == [] then []
    else (if Tied(le, s[0], k) then [s[0]] else []) + TiedWith(s[1..], le, k)
  }

  /** Places `x` before the first element it may precede. */
  function Insert<T>(x: T, s: seq<T>, le: (T, T) -> bool): seq<T> {
    if s == [] || le(x, s[0]) then [x] + s else [s[0]] + Insert(x, s[1..], le)
  }

  function SortBy<T>(s: seq<T>, le: (T, T) -> bool): seq<T> {
    if s == [] then [] else Insert(s[0], SortBy(s[1..], le), le)
  }

  lemma {:induction false} InsertPermutes<T>(x: T, s: seq<T>, le: (T, T) -> bool)
    ensures multiset(Insert(x, s, le)) == multiset{x} + multiset(s)
  {
    if s != [] && !le(x, s[0]) {
      InsertPermutes(x, s[1..], le);
      assert s == [s[0]] + s[1..];
    }
  }

  /** Sorting only reorders. */
  lemma {:induction false} SortPermutes<T>(s: seq<T>, le: (T, T) -> bool)
    ensures multiset(SortBy(s, le)) == multiset(s)
  {
    if s != [] {
      SortPermutes(s[1..], le);
      InsertPermutes(s[0], SortBy(s[1..], le), le);
      assert s == [s[0]] + s[1..];
    }
  }

  lemma SortLength<T>(s: seq<T>, le: (T, T) -> bool)
    ensures |SortBy(s, le)| == |s|
  {
    SortPermutes(s, le);
    assert |multiset(SortBy(s, le))| == |multiset(s)|;
  }

  /** `le` is total and transitive among the elements `ok` admits. */
  ghost predicate TotalPreorderWithin<T(!new)>(le: (T, T) -> bool, ok: T -> bool) {
    (forall a, b :: ok(a) && ok(b) ==> le(a, b) || le(b, a))
    && (forall a, b, c :: ok(a) && ok(b) && ok(c) && le(a, b) && le(b, c) ==> le(a, c))
  }

  lemma {:induction false} InsertSorted<T(!new)>(x: T, s: seq<T>, le: (T, T) -> bool, ok: T -> bool)
    requires TotalPreorderWithin(le, ok)
    requires ok(x) && forall i :: 0 <= i < |s| ==> ok(s[i])
    requires SortedBy(s, le)
    ensures SortedBy(Insert(x, s, le), le)
  {
    if s != [] && !le(x, s[0]) {
      InsertSorted(x, s[1..], le, ok);
      var r := Insert(x, s[1..], le);
      InsertPermutes(x, s[1..], le);
      forall j | 0 <= j < |r| ensures le(s[0], r[j]) {
        assert r[j] in multiset(r);
        assert r[j] == x || r[j] in multiset(s[1..]);
        if r[j] != x {
          var k :| 0 <= k < |s[1..]| && s[1..][k] == r[j];
          assert s[k + 1] == r[j];
        }
      }
    }
  }

  /**
   * The sort orders a list whose elements are all admitted by `ok`, when
   * the comparator is consistent among those.
   */
  lemma {:induction false} SortSortedWithin<T(!new)>(s: seq<T>, le: (T, T) -> bool, ok: T -> bool)
    requires TotalPreorderWithin(le, ok)
    requires forall i :: 0 <= i < |s| ==> ok(s[i])
    ensures SortedBy(SortBy(s, le), le)
  {
    if s != [] {
      SortSortedWithin(s[1..], le, ok);
      SortKeepsAdmitted(s[1..], le, ok);
      InsertSorted(s[0], SortBy(s[1..], le), le, ok);
    }
  }

  /** The sort orders its output. */
  lemma SortSorted<T(!new)>(s: seq<T>, le: (T, T) -> bool)
    requires TotalPreorder(le)
    ensures SortedBy(SortBy(s, le), le)
  {
    SortSortedWithin(s, le, _ => true);
  }

  lemma {:induction false} TiedWithConcat<T>(a: seq<T>, b: seq<T>, le: (T, T) -> bool, k: T)
    ensures TiedWith(a + b, le, k) == TiedWith(a, le, k) + TiedWith(b, le, k)
  {
    if a == [] {
      assert a + b == b;
    } else {
      TiedWithConcat(a[1..], b, le, k);
      assert (a + b)[1..] == a[1..] + b;
    }
  }

  lemma {:induction false} InsertTied<T(!new)>(x: T, s: seq<T>, le: (T, T) -> bool, ok: T -> bool, k: T)
    requires TotalPreorderWithin(le, ok)
    requires ok(x) && ok(k) && forall i :: 0 <= i < |s| ==> ok(s[i])
    requires SortedBy(s, le)
    ensures TiedWith(Insert(x, s, le), le, k)
         == (if Tied(le, x, k) then [x] else []) + TiedWith(s, le, k)
  {
    if s == [] || le(x, s[0]) {
      assert Insert(x, s, le) == [x] + s;
      TiedWithConcat([x], s, le, k);
    } else {
      var rest := Insert(x, s[1..], le);
      assert SortedBy(s[1..], le) && forall i :: 0 <= i < |s[1..]| ==> ok(s[1..][i]);
      InsertTied(x, s[1..], le, ok, k);
      assert Insert(x, s, le) == [s[0]] + rest;
      TiedWithConcat([s[0]], rest, le, k);
      assert s == [s[0]] + s[1..];
      TiedWithConcat([s[0]], s[1..], le, k);
      NotBothTied(x, s[0], le, ok, k);
    }
  }

  /** An element that may not precede `y` is not tied with what `y` is tied with. */
  lemma NotBothTied<T(!new)>(x: T, y: T, le: (T, T) -> bool, ok: T -> bool, k: T)
    requires TotalPreorderWithin(le, ok)
    requires ok(x) && ok(y) && ok(k) && !le(x, y)
    ensures !(Tied(le, x, k) && Tied(le, y, k))
  {
  }

  /**
   * Stability: for every key, the elements comparing equal to it keep
   * their input order, when the comparator is consistent on the elements.
   */
  lemma {:induction false} SortStableWithin<T(!new)>(s: seq<T>, le: (T, T) -> bool, ok: T -> bool, k: T)
    requires TotalPreorderWithin(le, ok)
    requires ok(k) && forall i :: 0 <= i < |s| ==> ok(s[i])
    ensures TiedWith(SortBy(s, le), le, k) == TiedWith(s, le, k)
  {
    if s != [] {
      SortStableWithin(s[1..], le, ok, k);
      SortSortedWithin(s[1..], le, ok);
      SortKeepsAdmitted(s[1..], le, ok);
      InsertTied(s[0], SortBy(s[1..], le), le, ok, k);
    }
  }

  lemma SortStable<T(!new)>(s: seq<T>, le: (T, T) -> bool, k: T)
    requires TotalPreorder(le)
    ensures TiedWith(SortBy(s, le), le, k) == TiedWith(s, le, k)
  {
    SortStableWithin(s, le, _ => true, k);
  }

  /** Every element of the sorted list is one of the input's, so `ok` admits it when it admits those. */
  lemma SortKeepsAdmitted<T>(s: seq<T>, le: (T, T) -> bool, ok: T -> bool)
    requires forall i :: 0 <= i < |s| ==> ok(s[i])
    ensures forall i :: 0 <= i < |SortBy(s, le)| ==> ok(SortBy(s, le)[i])
  {
    SortPermutes(s, le);
    forall i | 0 <= i < |SortBy(s, le)| ensures ok(SortBy(s, le)[i]) {
      var y := SortBy(s, le)[i];
      assert y in multiset(SortBy(s, le));
      var k :| 0 <= k < |s| && s[k] == y;
    }
  }

  /** The sort neither invents nor drops elements. */
  lemma SortMembers<T>(s: seq<T>, le: (T, T) -> bool, y: T)
    ensures y in SortBy(s, le) <==> y in s
  {
    SortPermutes(s, le);
    assert y in SortBy(s, le) <==> y in multiset(SortBy(s, le));
    assert y in s <==> y in multiset(s);
  }

  /** No two elements share a key. */
  predicate DistinctBy<T, K(==)>(s: seq<T>, key: T -> K) {
    forall i, j :: 0 <= i < j < |s| ==> key(s[i]) != key(s[j])
  }

  lemma {:induction false} InsertDistinct<T, K>(x: T, s: seq<T>, le: (T, T) -> bool, key: T -> K)
    requires DistinctBy(s, key)
    requires forall i :: 0 <= i < |s| ==> key(s[i]) != key(x)
    ensures DistinctBy(Insert(x, s, le), key)
  {
    if s != [] && !le(x, s[0]) {
      InsertDistinct(x, s[1..], le, key);
      var r := Insert(x, s[1..], le);
      InsertPermutes(x, s[1..], le);
      forall j | 0 <= j < |r| ensures key(s[0]) != key(r[j]) {
        assert r[j] in multiset(r);
        if r[j] != x {
          assert r[j] in multiset(s[1..]);
          var k :| 0 <= k < |s[1..]| && s[1..][k] == r[j];
          assert s[k + 1] == r[j];
        }
      }
    }
  }

  /** Sorting a list without repeated keys gives a list without repeated keys. */
  lemma {:induction false} SortDistinct<T, K>(s: seq<T>, le: (T, T) -> bool, key: T -> K)
    requires DistinctBy(s, key)
    ensures DistinctBy(SortBy(s, le), key)
  {
    if s != [] {
      SortDistinct(s[1..], le, key);
      var t := SortBy(s[1..], le);
      forall i | 0 <= i < |t| ensures key(t[i]) != key(s[0]) {
        SortMembers(s[1..], le, t[i]);
        var k :| 0 <= k < |s[1..]| && s[1..][k] == t[i];
        assert s[k + 1] == t[i];
      }
      InsertDistinct(s[0], t, le, key);
    }
  }
}
