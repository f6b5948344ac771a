/** Order-preserving selection over sequences (JavaScript's `Array.prototype.filter` and
    `find`) and the newest-first ordering that `Array.prototype.sort` performs in place. */
module Sequences {
  import opened Wrappers

  /** `s.filter(p)`: the elements of `s` that satisfy `p`, in their original order. */
  function Filter<T>(s: seq<T>, p: T -> bool): (r: seq<T>)
    ensures |r| <= |s|
    ensures forall i :: 0 <= i < |r| ==> p(r[i])
  {
    if s == [] then [] else (if p(s[0]) then [s[0]] else []) + Filter(s[1..], p)
  }

  /** An element is kept exactly when it occurs in the input and satisfies `p`. */
  lemma {:induction false} FilterMembership<T>(s: seq<T>, p: T -> bool, x: T)
    ensures x in Filter(s, p) <==> x in s && p(x)
  {
    if s != [] {
      FilterMembership(s[1..], p, x);
      assert x in s <==> x == s[0] || x in s[1..];
    }
  }

  /** `r` can be obtained from `s` by deleting elements: the elements it keeps stay in
      their relative order. */
  ghost predicate IsSubsequence<T>(r: seq<T>, s: seq<T>) {
    if s == [] then r == []
    else (r != [] && r[0] == s[0] && IsSubsequence(r[1..], s[1..])) || IsSubsequence(r, s[1..])
  }

  /** Filtering keeps order: the result is a subsequence of the input. */
  lemma {:induction false} FilterIsSubsequence<T>(s: seq<T>, p: T -> bool)
    ensures IsSubsequence(Filter(s, p), s)
  {
    if s != [] {
      FilterIsSubsequence(s[1..], p);
      var r := Filter(s, p);
      if p(s[0]) {
        assert r == [s[0]] + Filter(s[1..], p);
        assert r[0] == s[0] && r[1..] == Filter(s[1..], p);
      } else {
        assert r == Filter(s[1..], p);
      }
    }
  }

  /** Filtering twice with the same predicate is filtering once. */
  lemma {:induction false} FilterIdempotent<T>(s: seq<T>, p: T -> bool)
    ensures Filter(Filter(s, p), p) == Filter(s, p)
  {
    if s != [] {
      FilterIdempotent(s[1..], p);
      var t := Filter(s[1..], p);
      var r := Filter(s, p);
      if p(s[0]) {
        assert r == [s[0]] + t;
        assert r[0] == s[0] && r[1..] == t;
        assert Filter(r, p) == [s[0]] + Filter(t, p);
      } else {
        assert r == t;
      }
    }
  }

  /** A predicate that holds everywhere keeps the whole sequence. */
  lemma {:induction false} FilterKeepsAll<T>(s: seq<T>, p: T -> bool)
    requires forall i :: 0 <= i < |s| ==> p(s[i])
    ensures Filter(s, p) == s
  {
    if s != [] {
      FilterKeepsAll(s[1..], p);
      assert [s[0]] + s[1..] == s;
    }
  }

  /** Filtering by `p` and then by `q` is filtering by both at once. */
  lemma {:induction false} FilterFilter<T>(s: seq<T>, p: T -> bool, q: T -> bool)
    ensures Filter(Filter(s, p), q) == Filter(s, x => p(x) && q(x))
  {
    if s != [] {
      var pq := x => p(x) && q(x);
      FilterFilter(s[1..], p, q);
      var t := Filter(s[1..], p);
      var r := Filter(s, p);
      assert Filter(s, pq) == (if pq(s[0]) then [s[0]] else []) + Filter(s[1..], pq);
      if p(s[0]) {
        assert r == [s[0]] + t;
        assert r[0] == s[0] && r[1..] == t;
        assert Filter(r, q) == (if q(s[0]) then [s[0]] else []) + Filter(t, q);
      } else {
        assert r == t;
      }
    }
  }

  /** `s.findIndex(p)` as an option: the first index whose element satisfies `p`. */
  function FindIndex<T>(s: seq<T>, p: T -> bool): (r: Option<nat>)
    ensures r.Some? ==> r.value < |s| && p(s[r.value])
    ensures r.Some? ==> forall j :: 0 <= j < r.value ==> !p(s[j])
    ensures r.None? ==> forall j :: 0 <= j < |s| ==> !p(s[j])
  {
    if s == [] then None
    else if p(s[0]) then Some(0)
    else match FindIndex(s[1..], p)
      case None => None
      case Some(k) => Some(k + 1)
  }

  /** `s.find(p)`: the first element that satisfies `p`, or nothing. */
  function Find<T>(s: seq<T>, p: T -> bool): Option<T> {
    match FindIndex(s, p)
    case None => None
    case Some(k) => Some(s[k])
  }

  /** The elements are ordered by `key`, largest first (ties in any order). */
  ghost predicate NonIncreasing<T>(s: seq<T>, key: T -> int) {
    forall i, j :: 0 <= i < j < |s| ==> key(s[i]) >= key(s[j])
  }

  /** Each element's key is at least the next one's. */
  ghost predicate AdjacentNonIncreasing<T>(s: seq<T>, key: T -> int, n: int) {
    forall x :: 0 < x < n && x < |s| ==> key(s[x - 1]) >= key(s[x])
  }

  /** Ordered neighbours make an ordered sequence. */
  lemma AdjacentOrdered<T>(s: seq<T>, key: T -> int)
    requires AdjacentNonIncreasing(s, key, |s|)
    ensures NonIncreasing(s, key)
  {
    forall i, j | 0 <= i < j < |s|
      ensures key(s[i]) >= key(s[j])
    {
      AdjacentOrderedFrom(s, key, i, j);
    }
  }

  lemma {:induction false} AdjacentOrderedFrom<T>(s: seq<T>, key: T -> int, i: nat, j: nat)
    requires AdjacentNonIncreasing(s, key, |s|)
    requires i <= j < |s|
    ensures key(s[i]) >= key(s[j])
    decreases j - i
  {
    if i < j {
      AdjacentOrderedFrom(s, key, i, j - 1);
    }
  }

  /** `a.sort((x, y) => key(y) - key(x))`: sorts in place, largest key first, by
      insertion; the result is a permutation of the input. */
  method SortNonIncreasing<T>(a: array<T>, key: T -> int)
    modifies a
    ensures NonIncreasing(a[..], key)
    ensures multiset(a[..]) == multiset(old(a[..]))
  {
    var i := 0;
    while i < a.Length
      invariant 0 <= i <= a.Length
      invariant AdjacentNonIncreasing(a[..], key, i)
      invariant multiset(a[..]) == multiset(old(a[..]))
    {
      InsertInto(a, key, i);
      i := i + 1;
    }
    AdjacentOrdered(a[..], key);
  }

  /** One insertion step: `a[i]` sinks into the ordered prefix `a[..i]`, after which
      `a[..i + 1]` is ordered. */
  method InsertInto<T>(a: array<T>, key: T -> int, i: int)
    requires 0 <= i < a.Length
    requires AdjacentNonIncreasing(a[..], key, i)
    modifies a
    ensures AdjacentNonIncreasing(a[..], key, i + 1)
    ensures multiset(a[..]) == multiset(old(a[..]))
  {
    var j := i;
    while j > 0 && key(a[j - 1]) < key(a[j])
      invariant 0 <= j <= i
      invariant forall x :: 0 < x <= i && x != j ==> key(a[x - 1]) >= key(a[x])
      invariant 0 < j < i ==> key(a[j - 1]) >= key(a[j + 1])
      invariant multiset(a[..]) == multiset(old(a[..]))
    {
      Swap(a, j);
      j := j - 1;
    }
  }

  /** Exchanges `a[k - 1]` and `a[k]`. */
  method Swap<T>(a: array<T>, k: int)
    requires 0 < k < a.Length
    modifies a
    ensures a[k - 1] == old(a[k]) && a[k] == old(a[k - 1])
    ensures forall x :: 0 <= x < a.Length && x != k - 1 && x != k ==> a[x] == old(a[x])
    ensures multiset(a[..]) == multiset(old(a[..]))
  {
    a[k - 1], a[k] := a[k], a[k - 1];
  }

  /** A newest-first copy of `s`: the elements copied into a fresh array, which is then
      sorted in place. */
  method SortedCopy<T>(s: seq<T>, key: T -> int) returns (r: seq<T>)
    ensures NonIncreasing(r, key)
    ensures multiset(r) == multiset(s)
  {
    var a := new T[|s|](i requires 0 <= i < |s| => s[i]);
    assert a[..] == s;
    SortNonIncreasing(a, key);
    r := a[..];
  }
}
