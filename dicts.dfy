/**
 * Python dictionaries as the core uses them: insertion-ordered maps. The
 * order of `keys` is the order in which `for k in d` visits the entries.
 */
module Dicts {

  predicate Distinct<T(==)>(s: seq<T>) {
    forall i, j :: 0 <= i < j < |s| ==> s[i] != s[j]
  }

  datatype Dict<K(==,!new), V> = Dict(keys: seq<K>, vals: map<K, V>) {

    /** The keys are listed once each, and exactly the keys of `vals` are listed. */
    ghost predicate Valid() {
      && Distinct(keys)
      && (forall k :: k in vals <==> k in keys)
    }

    /** `d[k] = v`: an existing key keeps its position, a new key goes last. */
    function Put(k: K, v: V): (d: Dict<K, V>)
      ensures d.vals == vals[k := v]
      ensures d.keys == if k in vals then keys else keys + [k]
      ensures Valid() ==> d.Valid()
    {
      if k in vals then Dict(keys, vals[k := v]) else Dict(keys + [k], vals[k := v])
    }

    /** Writing a key twice keeps only the second value. */
    lemma PutPut(k: K, a: V, b: V)
      ensures Put(k, a).Put(k, b) == Put(k, b)
    {
    }

    /** Writing back a key's own value changes nothing. */
    lemma PutSame(k: K)
      requires k in vals
      ensures Put(k, vals[k]) == this
    {
    }

    /** The `i`-th listed key is a key, listed nowhere before position `i`. */
    lemma KeyAt(i: nat)
      requires Valid() && i < |keys|
      ensures keys[i] in vals && keys[i] !in keys[..i]
    {
      forall j | 0 <= j < i ensures keys[j] != keys[i] {}
    }

    /** The position at which a key is listed. */
    lemma PositionOf(k: K) returns (i: nat)
      requires Valid() && k in vals
      ensures i < |keys| && keys[i] == k
    {
      assert k in keys;
      i :| 0 <= i < |keys| && keys[i] == k;
    }

    /** `d.get(k, default)` */
    function Get(k: K, default: V): V {
      if k in vals then vals[k] else default
    }
  }

  /** `{}` */
  function Empty<K(==,!new), V>(): (d: Dict<K, V>)
    ensures d.Valid() && d.keys == [] && d.vals == map[]
  {
    Dict([], map[])
  }

  /** The elements of `s` that satisfy `keep`, in their order. */
  function FilterSeq<T(==,!new)>(s: seq<T>, keep: T -> bool): (r: seq<T>)
    ensures |r| <= |s|
  {
    if |s| == 0 then []
    else (if keep(s[0]) then [s[0]] else []) + FilterSeq(s[1..], keep)
  }

  /** The filter keeps exactly the elements that satisfy `keep`, and repeats none that was not repeated. */
  lemma {:induction false} FilterSeqFacts<T(!new)>(s: seq<T>, keep: T -> bool)
    ensures forall x :: x in FilterSeq(s, keep) <==> x in s && keep(x)
    ensures Distinct(s) ==> Distinct(FilterSeq(s, keep))
    decreases |s|
  {
    if |s| > 0 {
      FilterSeqFacts(s[1..], keep);
      var head := if keep(s[0]) then [s[0]] else [];
      var rest := FilterSeq(s[1..], keep);
      assert FilterSeq(s, keep) == head + rest;
      assert s == [s[0]] + s[1..];
      if Distinct(s) {
        assert Distinct(s[1..]) by {
          forall i, j | 0 <= i < j < |s[1..]| ensures s[1..][i] != s[1..][j] {
            assert s[1..][i] == s[i + 1] && s[1..][j] == s[j + 1];
          }
        }
        forall i, j | 0 <= i < j < |head + rest|
          ensures (head + rest)[i] != (head + rest)[j]
        {
          if i < |head| {
            assert (head + rest)[j] in rest;
            assert s[0] !in s[1..] by {
              forall k | 0 <= k < |s[1..]| ensures s[1..][k] != s[0] {
                assert s[1..][k] == s[k + 1];
              }
            }
          } else {
            assert (head + rest)[i] == rest[i - |head|] && (head + rest)[j] == rest[j - |head|];
          }
        }
      }
    }
  }

  /** Nothing is kept when no element satisfies `keep`. */
  lemma {:induction false} FilterSeqNone<T(!new)>(s: seq<T>, keep: T -> bool)
    requires forall i :: 0 <= i < |s| ==> !keep(s[i])
    ensures FilterSeq(s, keep) == []
    decreases |s|
  {
    if |s| > 0 {
      assert forall i :: 0 <= i < |s[1..]| ==> s[1..][i] == s[i + 1];
      FilterSeqNone(s[1..], keep);
    }
  }

  /** Filtering a sequence one element longer adds at most that element. */
  lemma {:induction false} FilterSeqSnoc<T(!new)>(s: seq<T>, x: T, keep: T -> bool)
    ensures FilterSeq(s + [x], keep) == FilterSeq(s, keep) + (if keep(x) then [x] else [])
    decreases |s|
  {
    if |s| == 0 {
      assert [x][1..] == [];
      assert FilterSeq([x], keep) == (if keep(x) then [x] else []) + FilterSeq([x][1..], keep);
    } else {
      var head := if keep(s[0]) then [s[0]] else [];
      assert (s + [x])[0] == s[0] && (s + [x])[1..] == s[1..] + [x];
      assert FilterSeq(s + [x], keep) == head + FilterSeq(s[1..] + [x], keep);
      FilterSeqSnoc(s[1..], x, keep);
      assert FilterSeq(s, keep) == head + FilterSeq(s[1..], keep);
    }
  }

  /** `{k: v for k, v in d.items() if keep(k)}` */
  function Filter<K(==,!new), V>(d: Dict<K, V>, keep: K -> bool): (r: Dict<K, V>)
    requires d.Valid()
    ensures r.Valid()
    ensures r.keys == FilterSeq(d.keys, keep)
    ensures forall k :: k in r.vals <==> k in d.vals && keep(k)
    ensures forall k :: k in r.vals ==> r.vals[k] == d.vals[k]
  {
    FilterSeqFacts(d.keys, keep);
    Dict(FilterSeq(d.keys, keep), map k | k in d.vals && keep(k) :: d.vals[k])
  }
}
