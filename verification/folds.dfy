/** Order-preserving filters, left-fold sums and map-value sums: the shapes of
    `Array.prototype.filter`, `Array.prototype.reduce` and a `Record<string, number>`
    accumulator, with the facts the dashboard needs about them. */
module Folds {

  /** `s.filter(p)`: keeps, in order, the elements satisfying `p`. */
  function Filter<T>(s: seq<T>, p: T -> bool): (r: seq<T>)
    ensures |r| <= |s|
    ensures forall k :: 0 <= k < |r| ==> p(r[k])
    decreases |s|
  {
    if |s| == 0 then [] else Filter(s[..|s| - 1], p) + (if p(s[|s| - 1]) then [s[|s| - 1]] else [])
  }

  /** Filtering distributes over concatenation: the filter keeps order and drops nothing it accepts. */
  lemma {:induction false} FilterConcat<T>(a: seq<T>, b: seq<T>, p: T -> bool)
    ensures Filter(a + b, p) == Filter(a, p) + Filter(b, p)
    decreases |b|
  {
    if |b| == 0 {
      assert a + b == a;
    } else {
      var b' := b[..|b| - 1];
      assert (a + b)[..|a + b| - 1] == a + b';
      FilterConcat(a, b', p);
    }
  }

  lemma {:induction false} FilterMembership<T>(s: seq<T>, p: T -> bool, x: T)
    ensures x in Filter(s, p) <==> x in s && p(x)
    decreases |s|
  {
    if |s| > 0 {
      var s' := s[..|s| - 1];
      assert s == s' + [s[|s| - 1]];
      FilterMembership(s', p, x);
    }
  }

  /** A filter that accepts none of the elements leaves nothing. */
  lemma {:induction false} FilterNone<T>(s: seq<T>, p: T -> bool)
    requires forall k :: 0 <= k < |s| ==> !p(s[k])
    ensures Filter(s, p) == []
    decreases |s|
  {
    if |s| > 0 {
      FilterNone(s[..|s| - 1], p);
    }
  }

  /** A filter that accepts every element keeps them all. */
  lemma {:induction false} FilterAll<T>(s: seq<T>, p: T -> bool)
    requires forall k :: 0 <= k < |s| ==> p(s[k])
    ensures Filter(s, p) == s
    decreases |s|
  {
    if |s| > 0 {
      FilterAll(s[..|s| - 1], p);
    }
  }

  /** The number of times `x` occurs after filtering. */
  lemma {:induction false} FilterMultiplicity<T>(s: seq<T>, p: T -> bool, x: T)
    ensures multiset(Filter(s, p))[x] == if p(x) then multiset(s)[x] else 0
    decreases |s|
  {
    if |s| > 0 {
      var s' := s[..|s| - 1];
      assert s == s' + [s[|s| - 1]];
      FilterMultiplicity(s', p, x);
    }
  }

  /** Filtering a permutation gives a permutation of the filtered sequence. */
  lemma FilterPermutation<T>(a: seq<T>, b: seq<T>, p: T -> bool)
    requires multiset(a) == multiset(b)
    ensures multiset(Filter(a, p)) == multiset(Filter(b, p))
  {
    forall x ensures multiset(Filter(a, p))[x] == multiset(Filter(b, p))[x] {
      FilterMultiplicity(a, p, x);
      FilterMultiplicity(b, p, x);
    }
    MultisetExt(multiset(Filter(a, p)), multiset(Filter(b, p)));
  }

  lemma MultisetExt<T>(a: multiset<T>, b: multiset<T>)
    requires forall x :: a[x] == b[x]
    ensures a == b
  {
  }

  /** Splitting by a predicate and its complement `q` loses and duplicates nothing. */
  lemma {:induction false} FilterPartitionLength<T>(s: seq<T>, p: T -> bool, q: T -> bool)
    requires forall x :: q(x) == !p(x)
    ensures |Filter(s, p)| + |Filter(s, q)| == |s|
    decreases |s|
  {
    if |s| > 0 {
      FilterPartitionLength(s[..|s| - 1], p, q);
    }
  }

  /** The positions of `s` whose element satisfies `p`. */
  function Positions<T>(s: seq<T>, p: T -> bool): set<int>
  {
    set k | 0 <= k < |s| && p(s[k])
  }

  /** A filter keeps one element per accepted position: its length counts those positions. */
  lemma {:induction false} FilterCountsPositions<T>(s: seq<T>, p: T -> bool)
    ensures |Filter(s, p)| == |Positions(s, p)|
    decreases |s|
  {
    if |s| > 0 {
      var s' := s[..|s| - 1];
      FilterCountsPositions(s', p);
      var last := if p(s[|s| - 1]) then {|s| - 1} else {};
      assert Positions(s, p) == Positions(s', p) + last;
      assert |s| - 1 !in Positions(s', p);
    }
  }

  /** `s.reduce((acc, x) => acc + f(x), 0)`, folding from the left. */
  function SumBy<T>(s: seq<T>, f: T -> real): real
    decreases |s|
  {
    if |s| == 0 then 0.0 else SumBy(s[..|s| - 1], f) + f(s[|s| - 1])
  }

  lemma {:induction false} SumByConcat<T>(a: seq<T>, b: seq<T>, f: T -> real)
    ensures SumBy(a + b, f) == SumBy(a, f) + SumBy(b, f)
    decreases |b|
  {
    if |b| == 0 {
      assert a + b == a;
    } else {
      var b' := b[..|b| - 1];
      assert (a + b)[..|a + b| - 1] == a + b';
      SumByConcat(a, b', f);
    }
  }

  /** A sum depends only on which elements occur, not on their order. */
  lemma {:induction false} SumByPermutation<T>(a: seq<T>, b: seq<T>, f: T -> real)
    requires multiset(a) == multiset(b)
    ensures SumBy(a, f) == SumBy(b, f)
    decreases |a|
  {
    if |a| > 0 {
      var x := a[|a| - 1];
      var a' := a[..|a| - 1];
      assert a == a' + [x];
      assert x in multiset(b);
      var i :| 0 <= i < |b| && b[i] == x;
      var b' := b[..i] + b[i + 1..];
      assert b == b[..i] + [x] + b[i + 1..];
      assert multiset(b) == multiset(b[..i]) + multiset([x]) + multiset(b[i + 1..]);
      assert multiset(a) == multiset(a') + multiset([x]);
      assert multiset(b') == multiset(b[..i]) + multiset(b[i + 1..]);
      forall y ensures multiset(a')[y] == multiset(b')[y] {
        assert multiset(a)[y] == multiset(a')[y] + multiset([x])[y];
        assert multiset(b)[y] == multiset(b')[y] + multiset([x])[y];
      }
      MultisetExt(multiset(a'), multiset(b'));
      SumByPermutation(a', b', f);
      SumByConcat(b[..i] + [x], b[i + 1..], f);
      SumByConcat(b[..i], [x], f);
      SumByConcat(b[..i], b[i + 1..], f);
    }
  }

  /** Summing the filtered elements is summing everything with the rejected ones counted as zero. */
  lemma {:induction false} SumByFilter<T>(s: seq<T>, p: T -> bool, f: T -> real)
    ensures SumBy(Filter(s, p), f) == SumBy(s, x => if p(x) then f(x) else 0.0)
    decreases |s|
  {
    if |s| > 0 {
      var s' := s[..|s| - 1];
      var x := s[|s| - 1];
      SumByFilter(s', p, f);
      SumByConcat(Filter(s', p), if p(x) then [x] else [], f);
    }
  }

  /** A sum splits into the part a predicate accepts and the part its complement `q` accepts. */
  lemma {:induction false} SumByPartition<T>(s: seq<T>, p: T -> bool, q: T -> bool, f: T -> real)
    requires forall x :: q(x) == !p(x)
    ensures SumBy(s, f) == SumBy(Filter(s, p), f) + SumBy(Filter(s, q), f)
    decreases |s|
  {
    if |s| > 0 {
      var s' := s[..|s| - 1];
      var x := s[|s| - 1];
      SumByPartition(s', p, q, f);
      SumByConcat(Filter(s', p), if p(x) then [x] else [], f);
      SumByConcat(Filter(s', q), if q(x) then [x] else [], f);
    }
  }

  lemma {:induction false} SumByNonNegative<T>(s: seq<T>, f: T -> real)
    requires forall k :: 0 <= k < |s| ==> f(s[k]) >= 0.0
    ensures SumBy(s, f) >= 0.0
    decreases |s|
  {
    if |s| > 0 {
      SumByNonNegative(s[..|s| - 1], f);
    }
  }

  /** The distinct elements of a sequence (`new Set(s)`). */
  function Distinct<T>(s: seq<T>): set<T>
  {
    set k | 0 <= k < |s| :: s[k]
  }

  lemma {:induction false} DistinctBound<T>(s: seq<T>)
    ensures |Distinct(s)| <= |s|
    ensures |s| > 0 ==> |Distinct(s)| >= 1
    decreases |s|
  {
    if |s| > 0 {
      var s' := s[..|s| - 1];
      assert Distinct(s) == Distinct(s') + {s[|s| - 1]};
      DistinctBound(s');
    }
  }

  /** The sum of a map's values; the chosen key does not matter (see `SumValuesRemove`). */
  ghost function SumValues<K>(m: map<K, real>): real
    decreases |m|
  {
    if |m| == 0 then 0.0
    else
      var k :| k in m;
      m[k] + SumValues(m - {k})
  }

  lemma {:induction false} SumValuesRemove<K>(m: map<K, real>, k: K)
    requires k in m
    ensures SumValues(m) == m[k] + SumValues(m - {k})
    decreases |m|
  {
    var k' := PickSummedKey(m, k);
    if k' != k {
      RemoveTwoKeys(m, k, k');
      SumValuesRemove(m - {k'}, k);
      SumValuesRemove(m - {k}, k');
    }
  }

  /** The key `SumValues` happened to choose. */
  lemma PickSummedKey<K>(m: map<K, real>, k: K) returns (k': K)
    requires k in m
    ensures k' in m && SumValues(m) == m[k'] + SumValues(m - {k'})
  {
    assert |m| > 0 by { assert k in m.Keys; }
    k' :| k' in m && SumValues(m) == m[k'] + SumValues(m - {k'});
  }

  lemma RemoveTwoKeys<K>(m: map<K, real>, k: K, k': K)
    requires k in m && k' in m && k != k'
    ensures |m - {k'}| < |m| && |m - {k}| < |m| && (m - {k'}) - {k} == (m - {k}) - {k'}
  {
    assert (m - {k'}).Keys == m.Keys - {k'};
    assert (m - {k}).Keys == m.Keys - {k};
  }

  /** `acc[key] = (acc[key] || 0) + v` */
  function AddTo<K>(m: map<K, real>, key: K, v: real): (r: map<K, real>)
    ensures r.Keys == m.Keys + {key}
    ensures forall k :: k in m && k != key ==> r[k] == m[k]
  {
    m[key := (if key in m then m[key] else 0.0) + v]
  }

  lemma AddToSum<K>(m: map<K, real>, key: K, v: real)
    ensures SumValues(AddTo(m, key, v)) == SumValues(m) + v
  {
    var r := AddTo(m, key, v);
    SumValuesRemove(r, key);
    if key in m {
      SumValuesRemove(m, key);
      assert r - {key} == m - {key};
    } else {
      assert r - {key} == m;
    }
  }
}
