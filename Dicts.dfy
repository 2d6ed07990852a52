/** An insertion-ordered dictionary, the shape shared by JavaScript objects
    and Python dicts: assigning to a present key keeps its position,
    assigning to a new key appends it.  Represented as an association list
    whose first entry for a key is the one that counts. */
module Dicts {
  import opened Wrappers

  type Dict<V> = seq<(string, V)>

  predicate HasKey<V>(d: Dict<V>, k: string) {
    exists i :: 0 <= i < |d| && d[i].0 == k
  }

  function Get<V>(d: Dict<V>, k: string): (r: Option<V>)
    ensures r.Some? <==> HasKey(d, k)
    ensures r.Some? ==> exists i :: 0 <= i < |d| && d[i] == (k, r.value)
  {
    if |d| == 0 then None
    else if d[0].0 == k then Some(d[0].1)
    else
      var r := Get(d[1..], k);
      assert r.Some? ==> exists i :: 0 <= i < |d| && d[i] == (k, r.value) by {
        if r.Some? {
          var i :| 0 <= i < |d[1..]| && d[1..][i] == (k, r.value);
          assert d[i + 1] == (k, r.value);
        }
      }
      assert HasKey(d[1..], k) ==> HasKey(d, k);
      assert HasKey(d, k) ==> HasKey(d[1..], k) by {
        if HasKey(d, k) {
          var i :| 0 <= i < |d| && d[i].0 == k;
          assert d[1..][i - 1].0 == k;
        }
      }
      r
  }

  /** The keys in enumeration order. */
  function Keys<V>(d: Dict<V>): (ks: seq<string>)
    ensures |ks| == |d| && forall i :: 0 <= i < |d| ==> ks[i] == d[i].0
  {
    if |d| == 0 then [] else [d[0].0] + Keys(d[1..])
  }

  /** `d[k] = v`. */
  function Put<V>(d: Dict<V>, k: string, v: V): (r: Dict<V>)
    ensures Keys(r) == if HasKey(d, k) then Keys(d) else Keys(d) + [k]
    ensures forall k' :: Get(r, k') == if k' == k then Some(v) else Get(d, k')
  {
    if |d| == 0 then [(k, v)]
    else if d[0].0 == k then
      ConsFacts(d[0], d[1..]);
      ConsFacts((k, v), d[1..]);
      [(k, v)] + d[1..]
    else
      var rest := Put(d[1..], k, v);
      ConsFacts(d[0], d[1..]);
      ConsFacts(d[0], rest);
      [d[0]] + rest
  }

  /** Looking up in and listing the keys of a dict with one more entry in
      front. */
  lemma ConsFacts<V>(x: (string, V), rest: Dict<V>)
    ensures Keys([x] + rest) == [x.0] + Keys(rest)
    ensures forall k :: Get([x] + rest, k) == if x.0 == k then Some(x.1) else Get(rest, k)
    ensures forall k :: HasKey([x] + rest, k) <==> x.0 == k || HasKey(rest, k)
  {
    assert ([x] + rest)[1..] == rest;
  }

  /** Keys of a dict are distinct (what `Put` keeps). */
  predicate DistinctKeys<V>(d: Dict<V>) {
    forall i, j :: 0 <= i < j < |d| ==> d[i].0 != d[j].0
  }

  lemma {:induction false} PutKeepsDistinct<V>(d: Dict<V>, k: string, v: V)
    requires DistinctKeys(d)
    ensures DistinctKeys(Put(d, k, v))
  {
    var r := Put(d, k, v);
    var ks := Keys(r);
    forall i, j | 0 <= i < j < |r| ensures r[i].0 != r[j].0 {
      assert ks[i] == r[i].0 && ks[j] == r[j].0;
      if HasKey(d, k) {
        assert Keys(d)[i] == d[i].0 && Keys(d)[j] == d[j].0;
      } else {
        if j < |d| {
          assert Keys(d)[i] == d[i].0 && Keys(d)[j] == d[j].0;
        } else {
          assert ks[j] == k;
          assert Keys(d)[i] == d[i].0;
        }
      }
    }
  }

  /** One more entry of a prefix adds its key. */
  lemma HasKeyPrefix<V>(d: Dict<V>, i: nat, k: string)
    requires i < |d|
    ensures HasKey(d[..i + 1], k) <==> HasKey(d[..i], k) || k == d[i].0
  {
    assert d[..i + 1][i] == d[i];
    if HasKey(d[..i + 1], k) {
      var j :| 0 <= j <= i && d[..i + 1][j].0 == k;
      if j < i { assert d[..i][j].0 == k; }
    }
    if HasKey(d[..i], k) {
      var j :| 0 <= j < i && d[..i][j].0 == k;
      assert d[..i + 1][j].0 == k;
    }
  }

  /** Assigning a key that is not present appends it. */
  lemma {:induction false} PutNew<V>(d: Dict<V>, k: string, v: V)
    requires !HasKey(d, k)
    ensures Put(d, k, v) == d + [(k, v)]
  {
    if |d| > 0 {
      assert !HasKey(d[1..], k);
      PutNew(d[1..], k, v);
      assert d == [d[0]] + d[1..];
    }
  }

  /** The values in enumeration order (`Object.values`, `dict.values()`). */
  function Values<V>(d: Dict<V>): (vs: seq<V>)
    ensures |vs| == |d| && forall i :: 0 <= i < |d| ==> vs[i] == d[i].1
  {
    if |d| == 0 then [] else [d[0].1] + Values(d[1..])
  }

  /** The values paired with `k`, in order. */
  function ValuesFor<T>(pairs: seq<(string, T)>, k: string): (vs: seq<T>)
    ensures |vs| <= |pairs|
    ensures forall v :: v in vs ==> (k, v) in pairs
    decreases |pairs|
  {
    if |pairs| == 0 then []
    else
      var last := pairs[|pairs| - 1];
      var vs := ValuesFor(pairs[..|pairs| - 1], k) + (if last.0 == k then [last.1] else []);
      assert forall p :: p in pairs[..|pairs| - 1] ==> p in pairs;
      vs
  }

  /** `d[k].append(v)` on a `defaultdict(list)`. */
  function Append<T>(d: Dict<seq<T>>, k: string, v: T): Dict<seq<T>> {
    Put(d, k, Get(d, k).GetOr([]) + [v])
  }

  /** The dictionary built by appending each pair's value under its key, in
      order. */
  function Grouped<T>(pairs: seq<(string, T)>): Dict<seq<T>>
    decreases |pairs|
  {
    if |pairs| == 0 then []
    else Append(Grouped(pairs[..|pairs| - 1]), pairs[|pairs| - 1].0, pairs[|pairs| - 1].1)
  }

  /** A key of the grouping holds exactly the values paired with it, in
      order, and only keys that occur are present. */
  lemma {:induction false} GroupedGet<T>(pairs: seq<(string, T)>, k: string)
    ensures Get(Grouped(pairs), k) == if ValuesFor(pairs, k) == [] then None else Some(ValuesFor(pairs, k))
    decreases |pairs|
  {
    if |pairs| > 0 {
      var init := pairs[..|pairs| - 1];
      var last := pairs[|pairs| - 1];
      GroupedGet(init, k);
      var g := Grouped(init);
      var cur := Get(g, last.0).GetOr([]);
      assert Grouped(pairs) == Put(g, last.0, cur + [last.1]);
      assert Get(Grouped(pairs), k) == if k == last.0 then Some(cur + [last.1]) else Get(g, k);
      if k == last.0 {
        assert ValuesFor(pairs, k) == ValuesFor(init, k) + [last.1];
        assert cur == ValuesFor(init, k);
      } else {
        assert ValuesFor(pairs, k) == ValuesFor(init, k);
      }
    }
  }

  lemma {:induction false} GroupedDistinct<T>(pairs: seq<(string, T)>)
    ensures DistinctKeys(Grouped(pairs))
    decreases |pairs|
  {
    if |pairs| > 0 {
      var init := Grouped(pairs[..|pairs| - 1]);
      var last := pairs[|pairs| - 1];
      GroupedDistinct(pairs[..|pairs| - 1]);
      PutKeepsDistinct(init, last.0, Get(init, last.0).GetOr([]) + [last.1]);
    }
  }

  /** Assigns every pair in order, later pairs overwriting earlier ones. */
  function PutEach<V>(d: Dict<V>, pairs: seq<(string, V)>): Dict<V>
    decreases |pairs|
  {
    if |pairs| == 0 then d
    else Put(PutEach(d, pairs[..|pairs| - 1]), pairs[|pairs| - 1].0, pairs[|pairs| - 1].1)
  }

  /** The value of the last pair for `k`, searched from the end. */
  function LastFor<V>(pairs: seq<(string, V)>, k: string): (r: Option<V>)
    ensures r.Some? ==> (k, r.value) in pairs
    ensures r.None? ==> forall i :: 0 <= i < |pairs| ==> pairs[i].0 != k
    decreases |pairs|
  {
    if |pairs| == 0 then None
    else if pairs[|pairs| - 1].0 == k then Some(pairs[|pairs| - 1].1)
    else
      var r := LastFor(pairs[..|pairs| - 1], k);
      assert r.Some? ==> (k, r.value) in pairs by {
        if r.Some? {
          assert (k, r.value) in pairs[..|pairs| - 1];
        }
      }
      assert r.None? ==> forall i :: 0 <= i < |pairs| ==> pairs[i].0 != k by {
        if r.None? {
          forall i | 0 <= i < |pairs| ensures pairs[i].0 != k {
            if i < |pairs| - 1 {
              assert pairs[i] == pairs[..|pairs| - 1][i];
            }
          }
        }
      }
      r
  }

  /** After assigning the pairs, a key holds its last assigned value, or
      what it held before when no pair names it. */
  lemma {:induction false} PutEachGet<V>(d: Dict<V>, pairs: seq<(string, V)>, k: string)
    ensures Get(PutEach(d, pairs), k) == if LastFor(pairs, k).Some? then LastFor(pairs, k) else Get(d, k)
    decreases |pairs|
  {
    if |pairs| > 0 {
      PutEachGet(d, pairs[..|pairs| - 1], k);
    }
  }

  lemma {:induction false} PutEachAppend<V>(d: Dict<V>, a: seq<(string, V)>, b: seq<(string, V)>)
    ensures PutEach(d, a + b) == PutEach(PutEach(d, a), b)
    decreases |b|
  {
    if |b| == 0 {
      assert a + b == a;
    } else {
      assert (a + b)[..|a + b| - 1] == a + b[..|b| - 1];
      PutEachAppend(d, a, b[..|b| - 1]);
    }
  }

  lemma {:induction false} PutEachDistinct<V>(d: Dict<V>, pairs: seq<(string, V)>)
    requires DistinctKeys(d)
    ensures DistinctKeys(PutEach(d, pairs))
    decreases |pairs|
  {
    if |pairs| > 0 {
      PutEachDistinct(d, pairs[..|pairs| - 1]);
      PutKeepsDistinct(PutEach(d, pairs[..|pairs| - 1]), pairs[|pairs| - 1].0, pairs[|pairs| - 1].1);
    }
  }

  lemma PutEachSnoc<V>(d: Dict<V>, pairs: seq<(string, V)>, x: (string, V))
    ensures PutEach(d, pairs + [x]) == Put(PutEach(d, pairs), x.0, x.1)
  {
    assert (pairs + [x])[..|pairs|] == pairs;
  }

  lemma GroupedSnoc<T>(pairs: seq<(string, T)>, x: (string, T))
    ensures Grouped(pairs + [x]) == Append(Grouped(pairs), x.0, x.1)
  {
    assert (pairs + [x])[..|pairs|] == pairs;
  }
}
