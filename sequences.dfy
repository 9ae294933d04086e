/**
 * Generic list helpers used by the repository: first-match lookup by key,
 * removal at an index, swapping two positions, and a stable sort of
 * positions by an integer key.
 */
module Sequences {

  /** Position of the first occurrence of `x` in `s`, or `|s|` when `x` does not occur. */
  function FirstIndex<T(==)>(s: seq<T>, x: T): (k: nat)
    ensures k <= |s|
    ensures k < |s| ==> s[k] == x
    ensures forall j :: 0 <= j < k ==> s[j] != x
    ensures k == |s| <==> x !in s
  {
    if |s| == 0 then 0
    else if s[0] == x then 0
    else 1 + FirstIndex(s[1..], x)
  }

  /** The linear scan `for i, e in enumerate(s): if e == x: ...` that every lookup by id performs. */
  method FindFirst<T(==)>(s: seq<T>, x: T) returns (k: nat)
    ensures k == FirstIndex(s, x)
  {
    k := 0;
    while k < |s| && s[k] != x
      invariant k <= |s|
      invariant forall j :: 0 <= j < k ==> s[j] != x
    {
      k := k + 1;
    }
  }

  /** `s` with the element at position `i` taken out (`list.pop(i)`). */
  function RemoveAt<T>(s: seq<T>, i: nat): (r: seq<T>)
    requires i < |s|
    ensures |r| == |s| - 1
    ensures forall j :: 0 <= j < i ==> r[j] == s[j]
    ensures forall j :: i <= j < |r| ==> r[j] == s[j + 1]
  {
    s[..i] + s[i + 1..]
  }

  lemma RemoveAtMultiset<T>(s: seq<T>, i: nat)
    requires i < |s|
    ensures multiset(RemoveAt(s, i)) + multiset{s[i]} == multiset(s)
  {
    assert s == s[..i] + [s[i]] + s[i + 1..];
  }

  /** `s` with the elements at positions `i` and `j` exchanged (`s[i], s[j] = s[j], s[i]`). */
  function Swap<T>(s: seq<T>, i: nat, j: nat): (r: seq<T>)
    requires i < |s| && j < |s|
    ensures |r| == |s| && r[i] == s[j] && r[j] == s[i]
    ensures forall k :: 0 <= k < |s| && k != i && k != j ==> r[k] == s[k]
    ensures multiset(r) == multiset(s)
  {
    var r := s[i := s[j]][j := s[i]];
    assert multiset(r) == multiset(s) by {
      if i != j {
        assert multiset(s[i := s[j]]) == multiset(s) - multiset{s[i]} + multiset{s[j]};
      }
    }
    r
  }

  /** The positions `0, 1, ..., n - 1` in increasing order. */
  function Range(n: nat): (r: seq<nat>)
    ensures |r| == n && forall i :: 0 <= i < n ==> r[i] == i
  {
    seq(n, i requires 0 <= i < n => i)
  }

  lemma InRange(n: nat, x: nat)
    ensures x in multiset(Range(n)) <==> x < n
  {
    if x < n {
      assert Range(n)[x] == x;
    }
  }

  // ---------------------------------------------------------------------------
  // Stable sorting of positions by an integer key.
  //
  // Python's `sorted(xs, key=k)` and `xs.sort(key=k)` are stable: elements with
  // equal keys keep their relative order. Sorting positions 0..n-1 stably by
  // `keys` is therefore the same as sorting them strictly by the pair
  // (keys[p], p), and there is exactly one such arrangement (SortedUnique).
  // ---------------------------------------------------------------------------

  /** Position `a` comes strictly before position `b` in a stable sort by `keys`. */
  predicate Before(keys: seq<int>, a: nat, b: nat) {
    a < |keys| && b < |keys| && (keys[a] < keys[b] || (keys[a] == keys[b] && a < b))
  }

  /** `s` lists positions of `keys` in strictly increasing (key, position) order. */
  predicate SortedBy(keys: seq<int>, s: seq<nat>) {
    (forall i :: 0 <= i < |s| ==> s[i] < |keys|) &&
    (forall i, j :: 0 <= i < j < |s| ==> Before(keys, s[i], s[j]))
  }

  lemma ConsSorted(keys: seq<int>, a: nat, rest: seq<nat>)
    requires SortedBy(keys, rest) && a < |keys|
    requires forall y :: y in multiset(rest) ==> Before(keys, a, y)
    ensures SortedBy(keys, [a] + rest)
  {
    forall j | 0 <= j < |rest| ensures Before(keys, a, rest[j]) {
      assert rest[j] in multiset(rest);
    }
  }

  /** `x` placed into `s` just before the first position it comes before: one step of insertion sort. */
  function Insert(keys: seq<int>, s: seq<nat>, x: nat): (r: seq<nat>)
    ensures |r| == |s| + 1
  {
    if s == [] || Before(keys, x, s[0]) then [x] + s
    else [s[0]] + Insert(keys, s[1..], x)
  }

  /** Inserting adds exactly the inserted position. */
  lemma {:induction false} InsertAddsOne(keys: seq<int>, s: seq<nat>, x: nat)
    ensures multiset(Insert(keys, s, x)) == multiset(s) + multiset{x}
  {
    if s != [] && !Before(keys, x, s[0]) {
      InsertAddsOne(keys, s[1..], x);
      assert Insert(keys, s, x) == [s[0]] + Insert(keys, s[1..], x);
      assert s == [s[0]] + s[1..];
    }
  }

  /** Inserting a new position into a sorted arrangement keeps it sorted. */
  lemma {:induction false} InsertSorted(keys: seq<int>, s: seq<nat>, x: nat)
    requires SortedBy(keys, s) && x < |keys| && x !in s
    ensures SortedBy(keys, Insert(keys, s, x))
  {
    if s == [] {
    } else if Before(keys, x, s[0]) {
      ConsSortedHead(keys, x, s);
    } else {
      SortedTail(keys, s);
      assert x != s[0] && x !in s[1..];
      var rest := Insert(keys, s[1..], x);
      InsertSorted(keys, s[1..], x);
      InsertAddsOne(keys, s[1..], x);
      ConsSortedTail(keys, s, x, rest);
    }
  }

  lemma ConsSortedHead(keys: seq<int>, x: nat, s: seq<nat>)
    requires SortedBy(keys, s) && s != [] && Before(keys, x, s[0])
    ensures SortedBy(keys, [x] + s)
  {
    forall y | y in multiset(s) ensures Before(keys, x, y) {
      var j :| 0 <= j < |s| && s[j] == y;
      if j > 0 {
        assert Before(keys, s[0], s[j]);
      }
    }
    ConsSorted(keys, x, s);
  }

  lemma ConsSortedTail(keys: seq<int>, s: seq<nat>, x: nat, rest: seq<nat>)
    requires SortedBy(keys, s) && s != [] && x < |keys| && x != s[0] && !Before(keys, x, s[0])
    requires SortedBy(keys, rest) && multiset(rest) == multiset(s[1..]) + multiset{x}
    ensures SortedBy(keys, [s[0]] + rest)
  {
    forall y | y in multiset(rest) ensures Before(keys, s[0], y) {
      if y != x {
        assert y in multiset(s[1..]);
        var j :| 0 <= j < |s[1..]| && s[1..][j] == y;
        assert s[j + 1] == y;
      }
    }
    ConsSorted(keys, s[0], rest);
  }

  /** The positions `0..n-1` of `keys`, inserted one after another: insertion sort. */
  function SortPrefix(keys: seq<int>, n: nat): (r: seq<nat>)
    requires n <= |keys|
    ensures |r| == n
  {
    if n == 0 then [] else Insert(keys, SortPrefix(keys, n - 1), n - 1)
  }

  /** Insertion sort of the first `n` positions yields them, each once, in stable order. */
  lemma {:induction false} SortPrefixSorts(keys: seq<int>, n: nat)
    requires n <= |keys|
    ensures SortedBy(keys, SortPrefix(keys, n))
    ensures multiset(SortPrefix(keys, n)) == multiset(Range(n))
  {
    if n > 0 {
      var s := SortPrefix(keys, n - 1);
      SortPrefixSorts(keys, n - 1);
      RangeGrows(n - 1);
      assert n - 1 !in multiset(s);
      InsertSorted(keys, s, n - 1);
      InsertAddsOne(keys, s, n - 1);
      assert SortPrefix(keys, n) == Insert(keys, s, n - 1);
    }
  }

  /** Counting one further adds exactly the new position, which was not there before. */
  lemma RangeGrows(n: nat)
    ensures multiset(Range(n + 1)) == multiset(Range(n)) + multiset{n}
    ensures n !in multiset(Range(n))
  {
    assert Range(n + 1) == Range(n) + [n];
    InRange(n, n);
  }

  /** The positions of `keys` in the order a stable sort by key puts them. */
  function SortIndices(keys: seq<int>): (r: seq<nat>)
    ensures |r| == |keys|
    ensures forall i :: 0 <= i < |r| ==> r[i] < |keys|
  {
    SortPrefixSorts(keys, |keys|);
    PermutationCovers(keys, SortPrefix(keys, |keys|));
    SortPrefix(keys, |keys|)
  }

  /** The stable sort lists every position once, in increasing (key, position) order. */
  lemma SortIndicesSorts(keys: seq<int>)
    ensures SortedBy(keys, SortIndices(keys))
    ensures multiset(SortIndices(keys)) == multiset(Range(|keys|))
  {
    SortPrefixSorts(keys, |keys|);
  }

  /** A permutation of the positions of `keys` lists every position exactly once. */
  lemma PermutationCovers(keys: seq<int>, r: seq<nat>)
    requires multiset(r) == multiset(Range(|keys|))
    ensures forall i :: 0 <= i < |r| ==> r[i] < |keys|
    ensures forall p :: 0 <= p < |keys| ==> p in r
  {
    forall i | 0 <= i < |r| ensures r[i] < |keys| {
      assert r[i] in multiset(r);
      InRange(|keys|, r[i]);
    }
    forall p | 0 <= p < |keys| ensures p in r {
      InRange(|keys|, p);
      assert p in multiset(r);
    }
  }

  lemma SortedHeadFirst(keys: seq<int>, s: seq<nat>, y: nat)
    requires SortedBy(keys, s) && y in multiset(s) && y != s[0]
    ensures Before(keys, s[0], y)
  {
    var j :| 0 <= j < |s| && s[j] == y;
  }

  lemma SortedTail(keys: seq<int>, s: seq<nat>)
    requires SortedBy(keys, s) && s != []
    ensures SortedBy(keys, s[1..])
    ensures multiset(s[1..]) == multiset(s) - multiset{s[0]}
  {
    assert s == [s[0]] + s[1..];
  }

  /** The stable sort is unique: two sorted arrangements of the same positions are equal. */
  lemma {:induction false} SortedUnique(keys: seq<int>, s: seq<nat>, t: seq<nat>)
    requires SortedBy(keys, s) && SortedBy(keys, t)
    requires multiset(s) == multiset(t)
    ensures s == t
  {
    if s == [] {
      assert |t| == |multiset(t)| == 0;
    } else {
      assert |t| == |multiset(t)| == |s| > 0;
      assert s[0] in multiset(t) && t[0] in multiset(s);
      if s[0] != t[0] {
        SortedHeadFirst(keys, s, t[0]);
        SortedHeadFirst(keys, t, s[0]);
        assert false;
      }
      SortedTail(keys, s);
      SortedTail(keys, t);
      SortedUnique(keys, s[1..], t[1..]);
      forall i | 0 < i < |s| ensures s[i] == t[i] {
        assert s[i] == s[1..][i - 1] && t[i] == t[1..][i - 1];
      }
    }
  }
}
