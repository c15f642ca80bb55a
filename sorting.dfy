/** `Array.prototype.sort` with a numeric comparator `key(a) - key(b)`.
    Since ES2019 that sort is stable, so its result is determined: it is the
    stable insertion sort below, which keeps rows of equal key in their
    original order. */
module Sorting {

  /** Keys never decrease along `s`. */
  predicate SortedBy<T(!new)>(key: T -> int, s: seq<T>)
  {
    forall i, j :: 0 <= i < j < |s| ==> key(s[i]) <= key(s[j])
  }

  /** Keys strictly increase along `s`. */
  predicate StrictlySortedBy<T(!new)>(key: T -> int, s: seq<T>)
  {
    forall i, j :: 0 <= i < j < |s| ==> key(s[i]) < key(s[j])
  }

  /** Stable insertion: `x` goes after every element whose key is not
      larger than its own. */
  function Insert<T(!new)>(key: T -> int, s: seq<T>, x: T): seq<T>
    decreases |s|
  {
    if s == [] then [x]
    else if key(x) < key(s[0]) then [x] + s
    else [s[0]] + Insert(key, s[1..], x)
  }

  /** An insertion adds exactly one occurrence of `x`: the result is a
      permutation of the old elements and the new one. */
  lemma {:induction false} InsertPermutation<T(!new)>(key: T -> int, s: seq<T>, x: T)
    ensures |Insert(key, s, x)| == |s| + 1
    ensures multiset(Insert(key, s, x)) == multiset(s) + multiset{x}
    ensures forall y :: y in Insert(key, s, x) <==> y in s || y == x
    decreases |s|
  {
    var r := Insert(key, s, x);
    if s != [] && key(x) >= key(s[0]) {
      InsertPermutation(key, s[1..], x);
      assert s == [s[0]] + s[1..];
    } else if s != [] {
      assert r == [x] + s;
    }
    forall y ensures y in r <==> y in s || y == x {
      assert y in r <==> y in multiset(r);
      assert y in s <==> y in multiset(s);
    }
  }

  /** Insertion into a sorted sequence keeps it sorted. */
  lemma {:induction false} InsertSorted<T(!new)>(key: T -> int, s: seq<T>, x: T)
    requires SortedBy(key, s)
    ensures SortedBy(key, Insert(key, s, x))
    decreases |s|
  {
    if s != [] && key(x) >= key(s[0]) {
      var t := s[1..];
      InsertSorted(key, t, x);
      InsertPermutation(key, t, x);
      var u := Insert(key, t, x);
      var r := [s[0]] + u;
      assert Insert(key, s, x) == r;
      forall j | 0 <= j < |u| ensures key(s[0]) <= key(u[j]) {
        assert u[j] in u;
        if u[j] != x {
          assert u[j] in t;
          var k :| 0 <= k < |t| && t[k] == u[j];
          assert s[k + 1] == u[j];
        }
      }
      forall i, j | 0 <= i < j < |r| ensures key(r[i]) <= key(r[j]) {
        assert r[j] == u[j - 1];
        if i > 0 {
          assert r[i] == u[i - 1];
        }
      }
    }
  }

  /** Deleting one element keeps a sequence sorted. */
  lemma DeleteSorted<T(!new)>(key: T -> int, s: seq<T>, k: int)
    requires SortedBy(key, s) && 0 <= k < |s|
    ensures SortedBy(key, s[..k] + s[k + 1..])
  {
    var r := s[..k] + s[k + 1..];
    forall i, j | 0 <= i < j < |r| ensures key(r[i]) <= key(r[j]) {
      var i' := if i < k then i else i + 1;
      var j' := if j < k then j else j + 1;
      assert r[i] == s[i'] && r[j] == s[j'];
    }
  }

  /** Inserting an element whose key is at least every key appends it: a
      stable sort never moves a later element ahead of an equal one. */
  lemma {:induction false} InsertAtEnd<T(!new)>(key: T -> int, s: seq<T>, x: T)
    requires forall i :: 0 <= i < |s| ==> key(s[i]) <= key(x)
    ensures Insert(key, s, x) == s + [x]
    decreases |s|
  {
    if s != [] {
      assert key(s[0]) <= key(x);
      InsertAtEnd(key, s[1..], x);
      assert s == [s[0]] + s[1..];
    }
  }

  /** The stable sort: each element in turn is inserted after the elements
      of equal or smaller key. */
  function SortBy<T(!new)>(key: T -> int, s: seq<T>): seq<T>
    decreases |s|
  {
    if s == [] then [] else Insert(key, SortBy(key, s[..|s| - 1]), s[|s| - 1])
  }

  /** The sort returns a sorted permutation of its input. */
  lemma {:induction false} SortBySpec<T(!new)>(key: T -> int, s: seq<T>)
    ensures |SortBy(key, s)| == |s|
    ensures multiset(SortBy(key, s)) == multiset(s)
    ensures SortedBy(key, SortBy(key, s))
    decreases |s|
  {
    if s != [] {
      var n := |s|;
      var t := SortBy(key, s[..n - 1]);
      SortBySpec(key, s[..n - 1]);
      InsertPermutation(key, t, s[n - 1]);
      InsertSorted(key, t, s[n - 1]);
      assert s == s[..n - 1] + [s[n - 1]];
    }
  }

  /** Sorting keeps exactly the input's elements. */
  lemma SortMembers<T(!new)>(key: T -> int, s: seq<T>)
    ensures forall y :: y in SortBy(key, s) <==> y in s
  {
    SortBySpec(key, s);
    var r := SortBy(key, s);
    forall y ensures y in r <==> y in s {
      assert y in r <==> y in multiset(r);
      assert y in s <==> y in multiset(s);
    }
  }

  /** Sorting an already sorted sequence leaves it as it is. */
  lemma {:induction false} SortOfSorted<T(!new)>(key: T -> int, s: seq<T>)
    requires SortedBy(key, s)
    ensures SortBy(key, s) == s
    decreases |s|
  {
    if s != [] {
      var n := |s|;
      var front := s[..n - 1];
      assert SortedBy(key, front);
      SortOfSorted(key, front);
      InsertAtEnd(key, front, s[n - 1]);
      assert front + [s[n - 1]] == s;
    }
  }

  /** Inserts the elements of `b` one after another, in order. */
  function InsertAll<T(!new)>(key: T -> int, s: seq<T>, b: seq<T>): seq<T>
    decreases |b|
  {
    if b == [] then s else Insert(key, InsertAll(key, s, b[..|b| - 1]), b[|b| - 1])
  }

  /** Sorting `a + b` is sorting `a`, then inserting the elements of `b`. */
  lemma {:induction false} SortAppend<T(!new)>(key: T -> int, a: seq<T>, b: seq<T>)
    ensures SortBy(key, a + b) == InsertAll(key, SortBy(key, a), b)
    decreases |b|
  {
    if b == [] {
      assert a + b == a;
    } else {
      var n := |b|;
      var ab := a + b;
      SortAppend(key, a, b[..n - 1]);
      var front := ab[..|ab| - 1];
      assert front == a + b[..n - 1];
      var sorted := SortBy(key, front);
      assert sorted == InsertAll(key, SortBy(key, a), b[..n - 1]);
      assert ab[|ab| - 1] == b[n - 1];
      assert SortBy(key, ab) == Insert(key, sorted, b[n - 1]);
    }
  }

  /** Two sequences with strictly increasing keys and the same elements are
      equal: there is only one such order. */
  lemma {:induction false} StrictlySortedUnique<T(!new)>(key: T -> int, a: seq<T>, b: seq<T>)
    requires StrictlySortedBy(key, a) && StrictlySortedBy(key, b)
    requires forall y :: y in a <==> y in b
    ensures a == b
    decreases |a|
  {
    assert b != [] ==> b[0] in b;
    if a != [] {
      assert a[0] in a;
      var i :| 0 <= i < |a| && a[i] == b[0];
      var j :| 0 <= j < |b| && b[j] == a[0];
      assert key(a[0]) <= key(b[0]);
      assert key(b[0]) <= key(a[0]);
      assert i == 0;
      forall y ensures y in a[1..] <==> y in b[1..] {
        if y in a[1..] {
          var k :| 0 <= k < |a| - 1 && a[1..][k] == y;
          assert a[k + 1] == y;
          assert key(a[0]) < key(y);
          assert y in b;
          var m :| 0 <= m < |b| && b[m] == y;
          assert m != 0;
          assert b[1..][m - 1] == y;
        }
        if y in b[1..] {
          var k :| 0 <= k < |b| - 1 && b[1..][k] == y;
          assert b[k + 1] == y;
          assert key(b[0]) < key(y);
          assert y in a;
          var m :| 0 <= m < |a| && a[m] == y;
          assert m != 0;
          assert a[1..][m - 1] == y;
        }
      }
      assert StrictlySortedBy(key, a[1..]) && StrictlySortedBy(key, b[1..]);
      StrictlySortedUnique(key, a[1..], b[1..]);
      assert a == [a[0]] + a[1..] && b == [b[0]] + b[1..];
    }
  }
}
