/** The array and object helpers of the utility library: `chunk`, `unique`,
    `sortBy`, `pick` and `omit`. JavaScript arrays are sequences here, and a
    plain object is a map from its property names to its values. */
module ArrayUtils {

  /** No element occurs twice. */
  predicate Distinct<T(==)>(s: seq<T>) {
    forall i, j :: 0 <= i < j < |s| ==> s[i] != s[j]
  }

  /** The position where `x` first occurs in `s` (`s.indexOf(x)`). */
  function FirstIndex<T(==)>(s: seq<T>, x: T): (i: nat)
    requires x in s
    ensures i < |s| && s[i] == x
    ensures forall j :: 0 <= j < i ==> s[j] != x
  {
    if s[0] == x then 0 else 1 + FirstIndex(s[1..], x)
  }

  /** The first occurrence of `x` in a prefix of `s` is its first occurrence in `s`. */
  lemma FirstIndexInPrefix<T>(s: seq<T>, n: nat, x: T)
    requires n <= |s| && x in s[..n]
    ensures x in s && FirstIndex(s[..n], x) == FirstIndex(s, x)
  {
    var i := FirstIndex(s[..n], x);
    assert s[i] == x;
    assert forall j :: 0 <= j < n ==> s[..n][j] == s[j];
  }

  /** An element of a sequence without repeats occurs in it exactly once. */
  lemma {:induction false} DistinctOccursOnce<T>(s: seq<T>, x: T)
    requires Distinct(s) && x in s
    ensures multiset(s)[x] == 1
  {
    var pre := s[..|s| - 1];
    assert s == pre + [s[|s| - 1]];
    if x == s[|s| - 1] {
      assert forall i :: 0 <= i < |pre| ==> pre[i] != x;
      assert multiset(pre)[x] == 0;
    } else {
      assert x in pre;
      DistinctOccursOnce(pre, x);
    }
  }

  /** A rearrangement of a sequence without repeats has no repeats. */
  lemma PermutationKeepsDistinct<T>(a: seq<T>, b: seq<T>)
    requires Distinct(a) && multiset(a) == multiset(b)
    ensures Distinct(b)
  {
    forall i, j | 0 <= i < j < |b| ensures b[i] != b[j] {
      var x := b[i];
      assert x in multiset(a);
      DistinctOccursOnce(a, x);
      assert b == b[..j] + b[j..];
      assert multiset(b) == multiset(b[..j]) + multiset(b[j..]);
      assert b[..j][i] == x;
      assert multiset(b[j..])[x] == 0;
      assert b[j..][0] == b[j];
    }
  }

  /** The concatenation of a list of arrays (`chunks.flat()`). */
  function Flatten<T>(chunks: seq<seq<T>>): seq<T> {
    if chunks == [] then [] else Flatten(chunks[..|chunks| - 1]) + chunks[|chunks| - 1]
  }

  /** `chunk(array, size)`: consecutive slices of `size` elements, the last
      one possibly shorter. The source loops for ever on a non-empty array
      when `size` is not positive, so that is excluded. */
  method Chunk<T>(a: seq<T>, size: int) returns (chunks: seq<seq<T>>)
    requires 0 < size || |a| == 0
    ensures Flatten(chunks) == a
    ensures forall k :: 0 <= k < |chunks| ==> 1 <= |chunks[k]| <= size
    ensures forall k :: 0 <= k < |chunks| - 1 ==> |chunks[k]| == size
  {
    chunks := [];
    var i := 0;
    while i < |a|
      invariant 0 <= i
      invariant i <= |a| ==> Flatten(chunks) == a[..i]
      invariant i > |a| ==> Flatten(chunks) == a
      invariant forall k :: 0 <= k < |chunks| ==> 1 <= |chunks[k]| <= size
      invariant i <= |a| ==> forall k :: 0 <= k < |chunks| ==> |chunks[k]| == size
      invariant forall k :: 0 <= k < |chunks| - 1 ==> |chunks[k]| == size
      decreases |a| - i
    {
      var end := if i + size < |a| then i + size else |a|;
      var piece := a[i..end];
      assert Flatten(chunks + [piece]) == Flatten(chunks) + piece by {
        assert (chunks + [piece])[..|chunks|] == chunks;
      }
      assert a[..i] + a[i..end] == a[..end];
      chunks := chunks + [piece];
      i := i + size;
    }
    assert i >= |a|;
    if i == |a| { assert a[..i] == a; }
  }

  /** `unique(array)` (`Array.from(new Set(array))`): every element once, in
      the order of its first occurrence. */
  function Unique<T(==)>(s: seq<T>): (r: seq<T>)
    ensures Distinct(r)
    ensures forall x :: x in r ==> x in s
    ensures forall x :: x in s ==> x in r
    ensures forall i, j :: 0 <= i < j < |r| ==> FirstIndex(s, r[i]) < FirstIndex(s, r[j])
  {
    if s == [] then []
    else
      var pre := s[..|s| - 1];
      var u := Unique(pre);
      assert s == pre + [s[|s| - 1]];
      assert forall i :: 0 <= i < |u| ==> FirstIndex(pre, u[i]) == FirstIndex(s, u[i]) by {
        forall i | 0 <= i < |u| ensures FirstIndex(pre, u[i]) == FirstIndex(s, u[i]) {
          FirstIndexInPrefix(s, |s| - 1, u[i]);
        }
      }
      if s[|s| - 1] in u then u else u + [s[|s| - 1]]
  }

  /** The two orders `sortBy` accepts. */
  datatype Order = Asc | Desc

  /** Every element's rank is at most the rank of every later element. */
  predicate SortedBy<T>(s: seq<T>, rank: T -> int) {
    forall i, j :: 0 <= i < j < |s| ==> rank(s[i]) <= rank(s[j])
  }

  /** Inserts `x` into a sorted sequence after every element whose rank is
      not greater than its own. */
  function InsertByRank<T(==)>(x: T, t: seq<T>, rank: T -> int): (r: seq<T>)
    ensures multiset(r) == multiset(t) + multiset{x}
    ensures forall y :: y in r ==> y == x || y in t
  {
    if t == [] then [x]
    else if rank(t[0]) <= rank(x) then
      assert t == [t[0]] + t[1..];
      [t[0]] + InsertByRank(x, t[1..], rank)
    else
      [x] + t
  }

  /** Inserting into a sorted sequence keeps it sorted. */
  lemma {:induction false} InsertKeepsSorted<T>(x: T, t: seq<T>, rank: T -> int)
    requires SortedBy(t, rank)
    ensures SortedBy(InsertByRank(x, t, rank), rank)
  {
    if t != [] && rank(t[0]) <= rank(x) {
      var tail := t[1..];
      assert SortedBy(tail, rank) by {
        forall i, j | 0 <= i < j < |tail| ensures rank(tail[i]) <= rank(tail[j]) {
          assert tail[i] == t[i + 1] && tail[j] == t[j + 1];
        }
      }
      var rest := InsertByRank(x, tail, rank);
      InsertKeepsSorted(x, tail, rank);
      var r := [t[0]] + rest;
      assert InsertByRank(x, t, rank) == r;
      forall i, j | 0 <= i < j < |r| ensures rank(r[i]) <= rank(r[j]) {
        if i == 0 {
          assert r[j] == rest[j - 1] && r[j] in rest;
          if r[j] != x {
            var k :| 0 <= k < |tail| && tail[k] == r[j];
            assert tail[k] == t[k + 1];
          }
        } else {
          assert r[i] == rest[i - 1] && r[j] == rest[j - 1];
        }
      }
    }
  }

  /** A stable insertion sort by rank. */
  function SortByRank<T(==)>(s: seq<T>, rank: T -> int): (r: seq<T>)
    ensures multiset(r) == multiset(s)
    ensures SortedBy(r, rank)
  {
    if s == [] then []
    else
      assert s == s[..|s| - 1] + [s[|s| - 1]];
      var sorted := SortByRank(s[..|s| - 1], rank);
      InsertKeepsSorted(s[|s| - 1], sorted, rank);
      InsertByRank(s[|s| - 1], sorted, rank)
  }

  /** The comparator of `sortBy`: ascending compares the key itself,
      descending compares it reversed. */
  function Rank<T>(key: T -> int, order: Order, x: T): int {
    if order == Asc then key(x) else -key(x)
  }

  /** `sortBy(array, key, order)`: a sorted copy of the array (the argument
      itself is a value and is left as it was), holding the same elements
      the same number of times. */
  function SortBy<T(==)>(s: seq<T>, key: T -> int, order: Order): (r: seq<T>)
    ensures multiset(r) == multiset(s)
    ensures order == Asc ==> forall i, j :: 0 <= i < j < |r| ==> key(r[i]) <= key(r[j])
    ensures order == Desc ==> forall i, j :: 0 <= i < j < |r| ==> key(r[i]) >= key(r[j])
  {
    var r := SortByRank(s, x => Rank(key, order, x));
    assert forall i, j :: 0 <= i < j < |r| ==> Rank(key, order, r[i]) <= Rank(key, order, r[j]);
    r
  }

  /** `pick(obj, keys)`: the properties of `obj` named in `keys`. */
  method Pick<V>(obj: map<string, V>, keys: seq<string>) returns (result: map<string, V>)
    ensures forall k :: k in result <==> k in obj && k in keys
    ensures forall k :: k in result ==> result[k] == obj[k]
  {
    result := map[];
    for i := 0 to |keys|
      invariant forall k :: k in result <==> k in obj && k in keys[..i]
      invariant forall k :: k in result ==> k in obj && result[k] == obj[k]
    {
      assert keys[..i + 1] == keys[..i] + [keys[i]];
      if keys[i] in obj {
        result := result[keys[i] := obj[keys[i]]];
      }
    }
    assert keys[..|keys|] == keys;
  }

  /** `omit(obj, keys)`: a copy of `obj` without the properties named in `keys`. */
  method Omit<V>(obj: map<string, V>, keys: seq<string>) returns (result: map<string, V>)
    ensures forall k :: k in result <==> k in obj && k !in keys
    ensures forall k :: k in result ==> result[k] == obj[k]
  {
    result := obj;
    for i := 0 to |keys|
      invariant forall k :: k in result <==> k in obj && k !in keys[..i]
      invariant forall k :: k in result ==> k in obj && result[k] == obj[k]
    {
      assert keys[..i + 1] == keys[..i] + [keys[i]];
      result := result - {keys[i]};
    }
    assert keys[..|keys|] == keys;
  }
}
