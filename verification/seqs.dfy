/** The array pipelines the application is built from — `filter`, `map`,
    and `reduce` into a running total or into an object keyed by a field —
    as functions over sequences, with the facts the stores rely on. */
module Seqs {

  /** `r` can be obtained from `s` by deleting elements: the order of what
      is kept is the order in `s`. */
  predicate IsSubseq<T(==)>(r: seq<T>, s: seq<T>)
    decreases |s|
  {
    if r == [] then true
    else if s == [] then false
    else if r[0] == s[0] then IsSubseq(r[1..], s[1..])
    else IsSubseq(r, s[1..])
  }

  /** `s.filter(p)`: exactly the elements satisfying `p`, each as often as
      in `s`, in their order in `s`. */
  function Filter<T(==)>(s: seq<T>, p: T -> bool): (r: seq<T>)
    ensures forall k :: 0 <= k < |r| ==> p(r[k])
    ensures forall x :: x in r ==> x in s
    ensures forall x :: x in s ==> multiset(r)[x] == if p(x) then multiset(s)[x] else 0
    ensures |r| <= |s|
  {
    if s == [] then []
    else
      var rest := Filter(s[1..], p);
      assert s == [s[0]] + s[1..];
      assert multiset(s) == multiset{s[0]} + multiset(s[1..]);
      if p(s[0]) then
        var r := [s[0]] + rest;
        assert r[1..] == rest;
        assert multiset(r) == multiset{s[0]} + multiset(rest);
        r
      else
        rest
  }

  /** What `filter` keeps is in the order of `s`. */
  lemma {:induction false} FilterIsSubseq<T>(s: seq<T>, p: T -> bool)
    ensures IsSubseq(Filter(s, p), s)
  {
    if s != [] {
      FilterIsSubseq(s[1..], p);
    }
  }

  /** Filtering keeps everything when every element passes. */
  lemma {:induction false} FilterKeepsAll<T>(s: seq<T>, p: T -> bool)
    requires forall k :: 0 <= k < |s| ==> p(s[k])
    ensures Filter(s, p) == s
  {
    if s != [] {
      FilterKeepsAll(s[1..], p);
    }
  }

  /** Filtering by `p` and then by a stricter `q` is filtering by `q`. */
  lemma {:induction false} FilterOfFilter<T>(s: seq<T>, p: T -> bool, q: T -> bool)
    requires forall k :: 0 <= k < |s| && q(s[k]) ==> p(s[k])
    ensures Filter(Filter(s, p), q) == Filter(s, q)
  {
    if s != [] {
      FilterOfFilter(s[1..], p, q);
      if p(s[0]) {
        var f := Filter(s, p);
        assert f[0] == s[0] && f[1..] == Filter(s[1..], p);
      }
    }
  }

  /** `s.map(f)`. */
  function Project<T, U>(s: seq<T>, f: T -> U): (r: seq<U>)
    ensures |r| == |s|
    ensures forall k :: 0 <= k < |s| ==> r[k] == f(s[k])
  {
    if s == [] then [] else Project(s[..|s| - 1], f) + [f(s[|s| - 1])]
  }

  /** `s.reduce((sum, x) => sum + w(x), 0)`. */
  function SumOf<T>(s: seq<T>, w: T -> real): real {
    if s == [] then 0.0 else SumOf(s[..|s| - 1], w) + w(s[|s| - 1])
  }

  /** The total weight of the elements whose key is `k`. */
  function SumWhere<T, K(==)>(s: seq<T>, key: T -> K, k: K, w: T -> real): real {
    if s == [] then 0.0
    else SumWhere(s[..|s| - 1], key, k, w) + (if key(s[|s| - 1]) == k then w(s[|s| - 1]) else 0.0)
  }

  /** The number of elements whose key is `k`. */
  function CountWhere<T, K(==)>(s: seq<T>, key: T -> K, k: K): nat {
    if s == [] then 0
    else CountWhere(s[..|s| - 1], key, k) + (if key(s[|s| - 1]) == k then 1 else 0)
  }

  /** `s.reduce((acc, x) => { acc[key(x)] = (acc[key(x)] || 0) + w(x); return acc }, {})`. */
  function GroupSum<T, K(==)>(s: seq<T>, key: T -> K, w: T -> real): map<K, real> {
    if s == [] then map[]
    else
      var acc := GroupSum(s[..|s| - 1], key, w);
      var k := key(s[|s| - 1]);
      acc[k := (if k in acc then acc[k] else 0.0) + w(s[|s| - 1])]
  }

  /** `s.reduce((acc, x) => { acc[key(x)] = (acc[key(x)] || 0) + 1; return acc }, {})`. */
  function GroupCount<T, K(==)>(s: seq<T>, key: T -> K): map<K, nat> {
    if s == [] then map[]
    else
      var acc := GroupCount(s[..|s| - 1], key);
      var k := key(s[|s| - 1]);
      acc[k := (if k in acc then acc[k] else 0) + 1]
  }

  /** The object built by `GroupSum` has one entry per key that occurs,
      holding the total weight of that key's elements. */
  lemma {:induction false} GroupSumIsSumWhere<T, K>(s: seq<T>, key: T -> K, w: T -> real)
    ensures forall k :: k in GroupSum(s, key, w) <==> k in Project(s, key)
    ensures forall k :: k in GroupSum(s, key, w) ==> GroupSum(s, key, w)[k] == SumWhere(s, key, k, w)
  {
    if s != [] {
      var pre := s[..|s| - 1];
      GroupSumIsSumWhere(pre, key, w);
      var last := key(s[|s| - 1]);
      if last !in Project(pre, key) {
        NotInProjectSumsZero(pre, key, last, w);
      }
      assert Project(s, key) == Project(pre, key) + [last];
      var acc, m := GroupSum(pre, key, w), GroupSum(s, key, w);
      forall k | k in m ensures m[k] == SumWhere(s, key, k, w) {
        assert SumWhere(s, key, k, w) == SumWhere(pre, key, k, w) + (if last == k then w(s[|s| - 1]) else 0.0);
      }
    }
  }

  /** The object built by `GroupCount` has one entry per key that occurs,
      holding the number of that key's elements. */
  lemma {:induction false} GroupCountIsCountWhere<T, K>(s: seq<T>, key: T -> K)
    ensures forall k :: k in GroupCount(s, key) <==> k in Project(s, key)
    ensures forall k :: k in GroupCount(s, key) ==> GroupCount(s, key)[k] == CountWhere(s, key, k)
  {
    if s != [] {
      var pre := s[..|s| - 1];
      GroupCountIsCountWhere(pre, key);
      var last := key(s[|s| - 1]);
      if last !in Project(pre, key) {
        NotInProjectCountsZero(pre, key, last);
      }
      assert Project(s, key) == Project(pre, key) + [last];
      var acc, m := GroupCount(pre, key), GroupCount(s, key);
      forall k | k in m ensures m[k] == CountWhere(s, key, k) {
        assert CountWhere(s, key, k) == CountWhere(pre, key, k) + (if last == k then 1 else 0);
      }
    }
  }

  /** A key that does not occur has total weight zero. */
  lemma {:induction false} NotInProjectSumsZero<T, K>(s: seq<T>, key: T -> K, k: K, w: T -> real)
    requires k !in Project(s, key)
    ensures SumWhere(s, key, k, w) == 0.0
  {
    if s != [] {
      var pre := s[..|s| - 1];
      assert Project(s, key) == Project(pre, key) + [key(s[|s| - 1])];
      NotInProjectSumsZero(pre, key, k, w);
    }
  }

  /** A key that does not occur is counted zero times. */
  lemma {:induction false} NotInProjectCountsZero<T, K>(s: seq<T>, key: T -> K, k: K)
    requires k !in Project(s, key)
    ensures CountWhere(s, key, k) == 0
  {
    if s != [] {
      var pre := s[..|s| - 1];
      assert Project(s, key) == Project(pre, key) + [key(s[|s| - 1])];
      NotInProjectCountsZero(pre, key, k);
    }
  }
}
