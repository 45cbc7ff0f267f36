/** Argsort over one tensor row, as `tensor.sort(1)` returns it in its second
    component: a permutation of the positions 0..n-1 that lists the row's keys in
    ascending order. `torch.sort` does not promise an order among equal keys, so
    the properties below are stated for every permutation that sorts the keys
    (SortsAscending); Argsort, an insertion sort, is one such permutation. */
module Sorting {

  /** The positions 0, 1, ..., n-1. */
  function Range(n: nat): (r: seq<nat>)
    ensures |r| == n
    ensures forall i :: 0 <= i < n ==> r[i] == i
  {
    if n == 0 then [] else Range(n - 1) + [n - 1]
  }

  lemma {:induction false} RangeMultiplicity(n: nat, x: nat)
    ensures multiset(Range(n))[x] == if x < n then 1 else 0
  {
    if n > 0 {
      var last: nat := n - 1;
      RangeMultiplicity(last, x);
      assert Range(n) == Range(last) + [last];
      assert multiset(Range(n)) == multiset(Range(last)) + multiset{last};
    }
  }

  predicate InBounds(p: seq<nat>, n: nat) {
    forall i :: 0 <= i < |p| ==> p[i] < n
  }

  predicate Distinct(p: seq<nat>) {
    forall i, j :: 0 <= i < j < |p| ==> p[i] != p[j]
  }

  /** p lists every position 0..n-1 exactly once. */
  ghost predicate IsPermutation(p: seq<nat>, n: nat) {
    |p| == n && multiset(p) == multiset(Range(n))
  }

  /** A permutation of 0..n-1 stays in bounds, repeats nothing and misses nothing. */
  lemma PermutationProperties(p: seq<nat>, n: nat)
    requires IsPermutation(p, n)
    ensures InBounds(p, n)
    ensures Distinct(p)
    ensures forall x: nat :: x < n ==> x in p
  {
    forall i | 0 <= i < |p| ensures p[i] < n {
      assert p[i] in multiset(p);
      RangeMultiplicity(n, p[i]);
    }
    forall i, j | 0 <= i < j < |p| ensures p[i] != p[j] {
      var v := p[i];
      assert p == p[..i] + [v] + p[i + 1..j] + [p[j]] + p[j + 1..];
      RangeMultiplicity(n, v);
    }
    forall x: nat | x < n ensures x in p {
      RangeMultiplicity(n, x);
      assert x in multiset(p);
    }
  }

  /** The keys read through p are in ascending order. */
  predicate SortedBy(key: seq<real>, p: seq<nat>)
    requires InBounds(p, |key|)
  {
    forall i, j :: 0 <= i < j < |p| ==> key[p[i]] <= key[p[j]]
  }

  /** p is a possible second result of sorting `key` ascending. */
  ghost predicate SortsAscending(key: seq<real>, p: seq<nat>) {
    IsPermutation(p, |key|) && InBounds(p, |key|) && SortedBy(key, p)
  }

  /** Places position x after every listed position whose key is not larger. */
  function Insert(key: seq<real>, p: seq<nat>, x: nat): (r: seq<nat>)
    requires x < |key| && InBounds(p, |key|)
    ensures |r| == |p| + 1
    ensures InBounds(r, |key|)
    ensures multiset(r) == multiset(p) + multiset{x}
  {
    if p == [] then [x]
    else if key[x] < key[p[0]] then [x] + p
    else
      assert p == [p[0]] + p[1..];
      [p[0]] + Insert(key, p[1..], x)
  }

  /** Insert adds x and nothing else. */
  lemma InsertMembers(key: seq<real>, p: seq<nat>, x: nat)
    requires x < |key| && InBounds(p, |key|)
    ensures forall j :: 0 <= j < |Insert(key, p, x)| ==> Insert(key, p, x)[j] == x || Insert(key, p, x)[j] in p
  {
    var r := Insert(key, p, x);
    forall j | 0 <= j < |r| ensures r[j] == x || r[j] in p {
      assert r[j] in multiset(r);
    }
  }

  /** A position whose key is at most every key of a sorted list may go in front. */
  lemma SortedCons(key: seq<real>, y: nat, t: seq<nat>)
    requires y < |key| && InBounds(t, |key|) && SortedBy(key, t)
    requires forall z :: z in t ==> key[y] <= key[z]
    ensures InBounds([y] + t, |key|) && SortedBy(key, [y] + t)
  {
    var r := [y] + t;
    forall i, j | 0 <= i < j < |r| ensures key[r[i]] <= key[r[j]] {
      assert r[j] == t[j - 1];
      if i > 0 {
        assert r[i] == t[i - 1];
      }
    }
  }

  lemma {:induction false} InsertSorted(key: seq<real>, p: seq<nat>, x: nat)
    requires x < |key| && InBounds(p, |key|)
    requires SortedBy(key, p)
    ensures SortedBy(key, Insert(key, p, x))
    decreases |p|
  {
    if p == [] {
    } else if key[x] < key[p[0]] {
      SortedCons(key, x, p);
    } else {
      var tail := p[1..];
      InsertSorted(key, tail, x);
      InsertMembers(key, tail, x);
      SortedCons(key, p[0], Insert(key, tail, x));
    }
  }

  /** Insertion sort of the positions 0..m-1 by key. */
  function ArgsortPrefix(key: seq<real>, m: nat): (p: seq<nat>)
    requires m <= |key|
    ensures |p| == m && InBounds(p, |key|)
  {
    if m == 0 then [] else Insert(key, ArgsortPrefix(key, m - 1), m - 1)
  }

  lemma {:induction false} ArgsortPrefixPermutation(key: seq<real>, m: nat)
    requires m <= |key|
    ensures IsPermutation(ArgsortPrefix(key, m), m)
  {
    if m > 0 {
      ArgsortPrefixPermutation(key, m - 1);
      assert Range(m) == Range(m - 1) + [m - 1];
    }
  }

  lemma {:induction false} ArgsortPrefixSorted(key: seq<real>, m: nat)
    requires m <= |key|
    ensures SortedBy(key, ArgsortPrefix(key, m))
  {
    if m > 0 {
      ArgsortPrefixSorted(key, m - 1);
      InsertSorted(key, ArgsortPrefix(key, m - 1), m - 1);
    }
  }

  /** Argsort of the whole row by insertion sort: one of the permutations
      `sort` may return. */
  function Argsort(key: seq<real>): (p: seq<nat>)
    ensures |p| == |key| && InBounds(p, |key|)
    ensures SortsAscending(key, p)
  {
    ArgsortPrefixPermutation(key, |key|);
    ArgsortPrefixSorted(key, |key|);
    ArgsortPrefix(key, |key|)
  }

  /** The positions held in p, as sort keys (the second `sort` in the rank trick). */
  function IndexKeys(p: seq<nat>): (k: seq<real>)
    ensures |k| == |p|
  {
    seq(|p|, j requires 0 <= j < |p| => p[j] as real)
  }

  lemma {:induction false} IncreasingLower(t: seq<nat>, j: nat)
    requires forall a :: 0 < a < |t| ==> t[a - 1] < t[a]
    requires j < |t|
    ensures j <= t[j]
  {
    if j > 0 {
      IncreasingLower(t, j - 1);
    }
  }

  lemma {:induction false} IncreasingUpper(t: seq<nat>, j: nat)
    requires forall a :: 0 <= a < |t| ==> t[a] < |t|
    requires forall a :: 0 < a < |t| ==> t[a - 1] < t[a]
    requires j < |t|
    ensures t[j] <= j
    decreases |t| - j
  {
    if j < |t| - 1 {
      IncreasingUpper(t, j + 1);
    }
  }

  /** Sorting a permutation p by its own entries gives its inverse, whatever
      sorting permutation is chosen: the entries of p are distinct, so there are no
      ties to break. */
  lemma InverseOfSortedPermutation(p: seq<nat>, q: seq<nat>)
    requires IsPermutation(p, |p|)
    requires SortsAscending(IndexKeys(p), q)
    ensures |q| == |p| && InBounds(q, |p|) && InBounds(p, |p|)
    ensures forall j :: 0 <= j < |q| ==> p[q[j]] == j
    ensures forall i :: 0 <= i < |p| ==> q[p[i]] == i
  {
    var n := |p|;
    PermutationProperties(p, n);
    PermutationProperties(q, n);
    var t := seq(n, j requires 0 <= j < n => p[q[j]]);
    forall a | 0 < a < n ensures t[a - 1] < t[a] {
      assert IndexKeys(p)[q[a - 1]] <= IndexKeys(p)[q[a]];
      assert q[a - 1] != q[a];
    }
    forall j | 0 <= j < n ensures p[q[j]] == j {
      IncreasingLower(t, j);
      IncreasingUpper(t, j);
    }
    forall i | 0 <= i < n ensures q[p[i]] == i {
      var j := p[i];
      assert p[q[j]] == j;
    }
  }
}
