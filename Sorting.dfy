/** Stable sorting by a numeric key, the behaviour of JavaScript's
    `Array.prototype.sort` with a `(a, b) => key(a) - key(b)` comparator and of
    Python's `list.sort(key=...)` / `sorted(..., key=...)`: both are stable.
    `SortedBy` is the specification (insertion sort); `SortInPlace` is the
    in-place array algorithm proved to compute it. */
module Sorting {

  predicate SortedOn<T>(s: seq<T>, key: T -> real) {
    forall i, j :: 0 <= i < j < |s| ==> key(s[i]) <= key(s[j])
  }

  /** Inserts `x` after every element whose key is at most `key(x)`,
      scanning from the end. */
  function InsertBy<T>(s: seq<T>, x: T, key: T -> real): (r: seq<T>)
    ensures |r| == |s| + 1
    decreases |s|
  {
    if |s| == 0 || key(s[|s| - 1]) <= key(x) then s + [x]
    else InsertBy(s[..|s| - 1], x, key) + [s[|s| - 1]]
  }

  function SortedBy<T>(s: seq<T>, key: T -> real): (r: seq<T>)
    ensures |r| == |s|
    decreases |s|
  {
    if |s| == 0 then [] else InsertBy(SortedBy(s[..|s| - 1], key), s[|s| - 1], key)
  }

  lemma {:induction false} InsertByPerm<T>(s: seq<T>, x: T, key: T -> real)
    ensures multiset(InsertBy(s, x, key)) == multiset(s) + multiset{x}
    ensures |InsertBy(s, x, key)| == |s| + 1
    decreases |s|
  {
    if |s| > 0 && key(s[|s| - 1]) > key(x) {
      InsertByPerm(s[..|s| - 1], x, key);
      assert s == s[..|s| - 1] + [s[|s| - 1]];
    }
  }

  lemma {:induction false} InsertBySorted<T>(s: seq<T>, x: T, key: T -> real)
    requires SortedOn(s, key)
    ensures SortedOn(InsertBy(s, x, key), key)
    decreases |s|
  {
    if |s| > 0 && key(s[|s| - 1]) > key(x) {
      var p := s[..|s| - 1];
      var last := s[|s| - 1];
      InsertBySorted(p, x, key);
      InsertByPerm(p, x, key);
      var q := InsertBy(p, x, key);
      forall i | 0 <= i < |q| ensures key(q[i]) <= key(last) {
        assert q[i] in multiset(q);
        assert q[i] in multiset(p) || q[i] == x;
        if q[i] != x {
          var k :| 0 <= k < |p| && p[k] == q[i];
          assert s[k] == q[i];
        }
      }
    }
  }

  /** The sort's result is a permutation of its input. */
  lemma {:induction false} SortedByPerm<T>(s: seq<T>, key: T -> real)
    ensures multiset(SortedBy(s, key)) == multiset(s)
    ensures |SortedBy(s, key)| == |s|
    decreases |s|
  {
    if |s| > 0 {
      SortedByPerm(s[..|s| - 1], key);
      InsertByPerm(SortedBy(s[..|s| - 1], key), s[|s| - 1], key);
      assert s == s[..|s| - 1] + [s[|s| - 1]];
    }
  }

  /** The sort's result is ordered by non-decreasing key. */
  lemma {:induction false} SortedBySorted<T>(s: seq<T>, key: T -> real)
    ensures SortedOn(SortedBy(s, key), key)
    decreases |s|
  {
    if |s| > 0 {
      SortedBySorted(s[..|s| - 1], key);
      InsertBySorted(SortedBy(s[..|s| - 1], key), s[|s| - 1], key);
    }
  }

  /** No two different elements of `m` share a key. */
  ghost predicate KeyInjective<T(!new)>(m: multiset<T>, key: T -> real) {
    forall x, y :: x in m && y in m && key(x) == key(y) ==> x == y
  }

  lemma KeyInjectiveSub<T(!new)>(m1: multiset<T>, m2: multiset<T>, key: T -> real)
    requires m1 <= m2 && KeyInjective(m2, key)
    ensures KeyInjective(m1, key)
  {
    forall x, y | x in m1 && y in m1 && key(x) == key(y) ensures x == y {
      assert x in m2 && y in m2;
    }
  }

  lemma SortedTail<T>(s: seq<T>, key: T -> real)
    requires |s| > 0 && SortedOn(s, key)
    ensures SortedOn(s[1..], key)
  {
    forall i, j | 0 <= i < j < |s| - 1 ensures key(s[1..][i]) <= key(s[1..][j]) {
      assert s[1..][i] == s[i + 1] && s[1..][j] == s[j + 1];
    }
  }

  /** A key-ordered sequence starts with an element of least key. */
  lemma SortedHeadLeast<T>(s: seq<T>, x: T, key: T -> real)
    requires SortedOn(s, key) && x in multiset(s)
    ensures key(s[0]) <= key(x)
  {
    var i :| 0 <= i < |s| && s[i] == x;
    assert i == 0 || key(s[0]) <= key(s[i]);
  }

  /** Two key-ordered sequences holding the same elements, no two of which
      share a key, are equal: the ordering is canonical. */
  lemma {:induction false} SortedUnique<T(!new)>(s1: seq<T>, s2: seq<T>, key: T -> real)
    requires SortedOn(s1, key) && SortedOn(s2, key)
    requires multiset(s1) == multiset(s2)
    requires KeyInjective(multiset(s1), key)
    ensures s1 == s2
    decreases |s1|
  {
    assert |s1| == |multiset(s1)| == |s2|;
    if |s1| > 0 {
      var a, b := s1[0], s2[0];
      assert a in multiset(s1) && b in multiset(s2);
      SortedHeadLeast(s2, a, key);
      SortedHeadLeast(s1, b, key);
      assert a == b;
      assert s1 == [a] + s1[1..] && s2 == [a] + s2[1..];
      var m := multiset(s1[1..]);
      assert multiset(s1) == multiset{a} + m;
      assert multiset(s2) == multiset{a} + multiset(s2[1..]);
      KeyInjectiveSub(m, multiset(s1), key);
      SortedTail(s1, key);
      SortedTail(s2, key);
      SortedUnique(s1[1..], s2[1..], key);
    }
  }

  /** Sorting the same elements given in any order yields the same sequence
      when no two of them share a key. */
  lemma SortedByCanonical<T(!new)>(s1: seq<T>, s2: seq<T>, key: T -> real)
    requires multiset(s1) == multiset(s2)
    requires KeyInjective(multiset(s1), key)
    ensures SortedBy(s1, key) == SortedBy(s2, key)
  {
    SortedByPerm(s1, key);
    SortedByPerm(s2, key);
    SortedBySorted(s1, key);
    SortedBySorted(s2, key);
    SortedUnique(SortedBy(s1, key), SortedBy(s2, key), key);
  }

  /** One step of insertion sort: `a[i]` is moved into the ordered prefix
      `a[..i]`, shifting the larger elements one place right. */
  method InsertInPlace<T>(a: array<T>, i: nat, key: T -> real)
    requires i < a.Length
    modifies a
    ensures a[..i + 1] == InsertBy(old(a[..i]), old(a[i]), key)
    ensures a[i + 1..] == old(a[i + 1..])
  {
    ghost var sorted := a[..i];
    ghost var rest := a[i + 1..];
    var x := a[i];
    var j := ShiftLarger(a, i, x, key, sorted);
    a[j] := x;
    ghost var inserted := sorted[..j] + [x] + sorted[j..i];
    forall k | 0 <= k <= i ensures a[k] == inserted[k] {
      if k > j {
        assert inserted[k] == sorted[k - 1];
      }
    }
    assert a[..i + 1] == inserted;
    assert a[i + 1..] == rest;
    InsertByStop(sorted, j, x, key);
  }

  /** Shifts the elements of `a[..i]` whose key exceeds `key(x)` one place
      right, from the end; `j` is the place left free for `x`. */
  method ShiftLarger<T>(a: array<T>, i: nat, x: T, key: T -> real, ghost sorted: seq<T>) returns (j: nat)
    requires i < a.Length && a[..i] == sorted
    modifies a
    ensures j <= i
    ensures forall k :: 0 <= k < j ==> a[k] == sorted[k]
    ensures forall k :: j < k <= i ==> a[k] == sorted[k - 1]
    ensures forall k :: i < k < a.Length ==> a[k] == old(a[k])
    ensures j == 0 || key(sorted[j - 1]) <= key(x)
    ensures InsertBy(sorted, x, key) == InsertBy(sorted[..j], x, key) + sorted[j..i]
  {
    j := i;
    assert forall k :: 0 <= k < i ==> a[k] == sorted[k];
    while j > 0 && key(a[j - 1]) > key(x)
      invariant 0 <= j <= i
      invariant forall k :: 0 <= k < j ==> a[k] == sorted[k]
      invariant forall k :: j < k <= i ==> a[k] == sorted[k - 1]
      invariant forall k :: i < k < a.Length ==> a[k] == old(a[k])
      invariant forall k :: j <= k < i ==> key(sorted[k]) > key(x)
    {
      a[j] := a[j - 1];
      j := j - 1;
    }
    InsertByLarger(sorted, j, x, key);
  }

  /** Inserting `x` passes over a suffix whose keys all exceed its own. */
  lemma {:induction false} InsertByLarger<T>(sorted: seq<T>, j: nat, x: T, key: T -> real)
    requires j <= |sorted|
    requires forall k :: j <= k < |sorted| ==> key(sorted[k]) > key(x)
    ensures InsertBy(sorted, x, key) == InsertBy(sorted[..j], x, key) + sorted[j..]
    decreases |sorted| - j
  {
    if j == |sorted| {
      assert sorted[..j] == sorted;
    } else {
      InsertByLarger(sorted, j + 1, x, key);
      InsertByStep(sorted, j + 1, |sorted|, x, key);
    }
  }

  lemma InsertByStop<T>(sorted: seq<T>, j: nat, x: T, key: T -> real)
    requires j <= |sorted| && (j == 0 || key(sorted[j - 1]) <= key(x))
    ensures InsertBy(sorted[..j], x, key) == sorted[..j] + [x]
  {
  }

  lemma InsertByStep<T>(sorted: seq<T>, j: nat, i: nat, x: T, key: T -> real)
    requires 0 < j <= i == |sorted| && key(sorted[j - 1]) > key(x)
    requires InsertBy(sorted, x, key) == InsertBy(sorted[..j], x, key) + sorted[j..i]
    ensures InsertBy(sorted, x, key) == InsertBy(sorted[..j - 1], x, key) + sorted[j - 1..i]
  {
    assert sorted[..j][..j - 1] == sorted[..j - 1];
    assert sorted[j - 1..i] == [sorted[j - 1]] + sorted[j..i];
  }

  /** Insertion sort of an array in place. */
  method SortInPlace<T>(a: array<T>, key: T -> real)
    modifies a
    ensures a[..] == SortedBy(old(a[..]), key)
  {
    ghost var orig := a[..];
    var i := 0;
    while i < a.Length
      invariant 0 <= i <= a.Length
      invariant a[..i] == SortedBy(orig[..i], key)
      invariant a[i..] == orig[i..]
    {
      assert a[i] == orig[i];
      assert a[i + 1..] == orig[i + 1..] by {
        assert a[i + 1..] == a[i..][1..] && orig[i + 1..] == orig[i..][1..];
      }
      InsertInPlace(a, i, key);
      assert orig[..i + 1][..i] == orig[..i];
      i := i + 1;
    }
    assert a[..] == a[..a.Length] && orig == orig[..a.Length];
  }

  /** Stable sort of a list by key, through an array sorted in place. */
  method SortByKey<T>(s: seq<T>, key: T -> real) returns (r: seq<T>)
    ensures r == SortedBy(s, key)
  {
    if |s| == 0 {
      return [];
    }
    var a := new T[|s|](i requires 0 <= i < |s| => s[i]);
    assert a[..] == s;
    SortInPlace(a, key);
    r := a[..];
  }

  /** The first `k` elements of the sorted sequence are at most `k` elements
      of the input (as a sub-multiset), in key order, and no element left
      out has a smaller key than one taken. */
  lemma TakeSmallest<T>(s: seq<T>, key: T -> real, k: nat)
    ensures var r := SortedBy(s, key)[..if k <= |s| then k else |s|];
      && |r| == (if k <= |s| then k else |s|)
      && SortedOn(r, key)
      && multiset(r) <= multiset(s)
      && forall x, y :: x in multiset(s) - multiset(r) && y in r ==> key(y) <= key(x)
  {
    SortedByPerm(s, key);
    SortedBySorted(s, key);
    var sorted := SortedBy(s, key);
    var n := if k <= |s| then k else |s|;
    MultisetSplit(sorted, n);
    SortedSplit(sorted, n, key);
  }

  lemma MultisetSplit<T>(s: seq<T>, n: nat)
    requires n <= |s|
    ensures multiset(s[..n]) <= multiset(s)
    ensures multiset(s) - multiset(s[..n]) == multiset(s[n..])
  {
    assert s == s[..n] + s[n..];
  }

  /** A prefix of an ordered sequence is ordered, and no element after it
      has a smaller key than one in it. */
  lemma SortedSplit<T>(sorted: seq<T>, n: nat, key: T -> real)
    requires n <= |sorted| && SortedOn(sorted, key)
    ensures SortedOn(sorted[..n], key)
    ensures forall x, y :: x in multiset(sorted[n..]) && y in sorted[..n] ==> key(y) <= key(x)
  {
    forall x, y | x in multiset(sorted[n..]) && y in sorted[..n] ensures key(y) <= key(x) {
      var i :| 0 <= i < |sorted[n..]| && sorted[n..][i] == x;
      var j :| 0 <= j < n && sorted[..n][j] == y;
      assert sorted[j] == y && sorted[n + i] == x;
    }
  }
}
