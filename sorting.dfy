/**
 * Python's `list.sort(key=...)` and `sorted(..., key=...)`: a stable sort. The
 * keys here are numbers; `reverse=True` is the same stable sort on the negated
 * key, since Python keeps equal elements in their original order either way.
 */
module Sorting {

  /** The key never decreases along `s`. */
  predicate SortedBy<T>(s: seq<T>, key: T -> real) {
    forall i, j :: 0 <= i < j < |s| ==> key(s[i]) <= key(s[j])
  }

  /** The elements of `s` whose key is `w`, in their order in `s`. */
  function Where<T>(s: seq<T>, key: T -> real, w: real): seq<T>
    decreases |s|
  {
    if |s| == 0 then [] else (if key(s[0]) == w then [s[0]] else []) + Where(s[1..], key, w)
  }

  /** `x` placed after every element whose key is not greater than its own. */
  function Insert<T>(x: T, s: seq<T>, key: T -> real): seq<T>
    decreases |s|
  {
    if |s| == 0 then [x]
    else if key(x) < key(s[0]) then [x] + s
    else [s[0]] + Insert(x, s[1..], key)
  }

  /** The stable sort as a function: each element inserted, in order, into the sorted prefix. */
  function InsertionSort<T>(s: seq<T>, key: T -> real): seq<T>
    decreases |s|
  {
    if |s| == 0 then [] else Insert(s[|s| - 1], InsertionSort(s[..|s| - 1], key), key)
  }

  lemma {:induction false} WhereConcat<T>(a: seq<T>, b: seq<T>, key: T -> real, w: real)
    ensures Where(a + b, key, w) == Where(a, key, w) + Where(b, key, w)
    decreases |a|
  {
    if |a| == 0 {
      assert a + b == b;
    } else {
      var ab := a + b;
      var head := if key(a[0]) == w then [a[0]] else [];
      assert ab[0] == a[0] && ab[1..] == a[1..] + b;
      assert Where(ab, key, w) == head + Where(a[1..] + b, key, w);
      WhereConcat(a[1..], b, key, w);
      assert Where(a, key, w) == head + Where(a[1..], key, w);
    }
  }

  /** Nothing in a sorted sequence whose first key exceeds `w` has key `w`. */
  lemma {:induction false} WhereAbove<T>(s: seq<T>, key: T -> real, w: real)
    requires SortedBy(s, key) && |s| > 0 && w < key(s[0])
    ensures Where(s, key, w) == []
    decreases |s|
  {
    if |s| > 1 {
      WhereAbove(s[1..], key, w);
    }
  }

  lemma {:induction false} InsertPermutes<T>(x: T, s: seq<T>, key: T -> real)
    ensures multiset(Insert(x, s, key)) == multiset(s) + multiset{x}
    decreases |s|
  {
    if |s| > 0 && key(s[0]) <= key(x) {
      InsertPermutes(x, s[1..], key);
      assert s == [s[0]] + s[1..];
    }
  }

  lemma {:induction false} InsertSorted<T>(x: T, s: seq<T>, key: T -> real)
    requires SortedBy(s, key)
    ensures SortedBy(Insert(x, s, key), key)
    decreases |s|
  {
    if |s| > 0 && key(s[0]) <= key(x) {
      InsertSorted(x, s[1..], key);
      InsertPermutes(x, s[1..], key);
      var r := Insert(x, s[1..], key);
      assert ([s[0]] + r)[1..] == r;
      forall i, j | 0 <= i < j < |[s[0]] + r|
        ensures key(([s[0]] + r)[i]) <= key(([s[0]] + r)[j])
      {
        if i == 0 {
          var y := r[j - 1];
          assert y in multiset(r);
          if y != x {
            assert y in multiset(s[1..]);
            var k :| 0 <= k < |s[1..]| && s[1..][k] == y;
            assert s[k + 1] == y;
          }
        }
      }
    }
  }

  lemma {:induction false} InsertStable<T>(x: T, s: seq<T>, key: T -> real, w: real)
    requires SortedBy(s, key)
    ensures Where(Insert(x, s, key), key, w) == Where(s, key, w) + (if key(x) == w then [x] else [])
    decreases |s|
  {
    if |s| == 0 {
    } else if key(x) < key(s[0]) {
      assert ([x] + s)[1..] == s;
      if key(x) == w {
        WhereAbove(s, key, w);
      }
    } else {
      SortedTail(s, key);
      InsertStable(x, s[1..], key, w);
      var r := Insert(x, s[1..], key);
      assert ([s[0]] + r)[1..] == r;
      assert Where([s[0]] + r, key, w) == (if key(s[0]) == w then [s[0]] else []) + Where(r, key, w);
    }
  }

  /** The insertion sort orders by key, permutes its input, and keeps equal keys in input order. */
  lemma {:induction false} InsertionSortFacts<T>(s: seq<T>, key: T -> real)
    ensures SortedBy(InsertionSort(s, key), key)
    ensures multiset(InsertionSort(s, key)) == multiset(s)
    ensures forall w :: Where(InsertionSort(s, key), key, w) == Where(s, key, w)
    decreases |s|
  {
    if |s| > 0 {
      var front := s[..|s| - 1];
      var x := s[|s| - 1];
      InsertionSortFacts(front, key);
      InsertSorted(x, InsertionSort(front, key), key);
      InsertPermutes(x, InsertionSort(front, key), key);
      assert s == front + [x];
      forall w
        ensures Where(InsertionSort(s, key), key, w) == Where(s, key, w)
      {
        InsertStable(x, InsertionSort(front, key), key, w);
        WhereConcat(front, [x], key, w);
        assert [x][1..] == [];
      }
    }
  }

  /** A sorted tail is sorted. */
  lemma SortedTail<T>(s: seq<T>, key: T -> real)
    requires SortedBy(s, key) && |s| > 0
    ensures SortedBy(s[1..], key)
  {
    forall i, j | 0 <= i < j < |s[1..]|
      ensures key(s[1..][i]) <= key(s[1..][j])
    {
      assert s[1..][i] == s[i + 1] && s[1..][j] == s[j + 1];
    }
  }

  /** `x` goes past an element whose key is not greater than its own. */
  lemma InsertPast<T>(x: T, r: seq<T>, key: T -> real, j: nat)
    requires j < |r| && key(r[j]) <= key(x)
    ensures Insert(x, r[j..], key) == [r[j]] + Insert(x, r[j + 1..], key)
  {
    assert r[j..][1..] == r[j + 1..];
  }

  /** `x` stops before an element with a greater key, or at the end. */
  lemma InsertStops<T>(x: T, r: seq<T>, key: T -> real, j: nat)
    requires j <= |r| && (j == |r| || key(x) < key(r[j]))
    ensures Insert(x, r[j..], key) == [x] + r[j..]
  {
  }

  /** The inner loop of the sort: `x` placed after the elements whose key is not greater than its own. */
  method InsertInto<T>(x: T, r: seq<T>, key: T -> real) returns (out: seq<T>)
    ensures out == Insert(x, r, key)
  {
    var j := 0;
    while j < |r| && key(r[j]) <= key(x)
      invariant 0 <= j <= |r|
      invariant Insert(x, r, key) == r[..j] + Insert(x, r[j..], key)
    {
      InsertPast(x, r, key, j);
      assert r[..j + 1] == r[..j] + [r[j]];
      j := j + 1;
    }
    InsertStops(x, r, key, j);
    out := r[..j] + [x] + r[j..];
  }

  /** A stable sort by ascending key. */
  method SortBy<T>(s: seq<T>, key: T -> real) returns (r: seq<T>)
    ensures r == InsertionSort(s, key)
    ensures SortedBy(r, key) && multiset(r) == multiset(s)
    ensures forall w :: Where(r, key, w) == Where(s, key, w)
  {
    r := [];
    var i := 0;
    while i < |s|
      invariant 0 <= i <= |s|
      invariant r == InsertionSort(s[..i], key)
    {
      assert s[..i + 1][..i] == s[..i];
      r := InsertInto(s[i], r, key);
      i := i + 1;
    }
    assert s[..i] == s;
    InsertionSortFacts(s, key);
  }
}
