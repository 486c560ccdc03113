/**
  * Python's insertion-ordered `dict`, the `dict(zip(keys, values))` idiom and
  * `collections.Counter`, as the horoscope code uses them. A dict is the
  * sequence of its entries in insertion order; every dict built here has
  * distinct keys.
  */
module Dicts {
  import opened Wrappers

  type Dict<K, V> = seq<(K, V)>

  function Keys<K, V>(d: Dict<K, V>): seq<K> {
    seq(|d|, i requires 0 <= i < |d| => d[i].0)
  }

  function Values<K, V>(d: Dict<K, V>): seq<V> {
    seq(|d|, i requires 0 <= i < |d| => d[i].1)
  }

  predicate Distinct<T(==)>(s: seq<T>) {
    forall i, j :: 0 <= i < j < |s| ==> s[i] != s[j]
  }

  /** `zip(a, b)`: stops at the end of the shorter argument. */
  function Zip<A, B>(a: seq<A>, b: seq<B>): (z: seq<(A, B)>)
    ensures |z| == if |a| <= |b| then |a| else |b|
  {
    seq(if |a| <= |b| then |a| else |b|, i requires 0 <= i < |a| && i < |b| => (a[i], b[i]))
  }

  /** Position of the first occurrence of `k` in `ks`. */
  function IndexOf<K(==)>(ks: seq<K>, k: K): (i: nat)
    requires k in ks
    ensures i < |ks| && ks[i] == k && k !in ks[..i]
  {
    if ks[0] == k then 0 else 1 + IndexOf(ks[1..], k)
  }

  /** `d.get(k)`. */
  function Get<K(==), V>(d: Dict<K, V>, k: K): (r: Option<V>)
    ensures r.Some? <==> k in Keys(d)
    ensures r.Some? ==> r.value == d[IndexOf(Keys(d), k)].1
  {
    if d == [] then None
    else if d[0].0 == k then
      assert Keys(d)[0] == k;
      Some(d[0].1)
    else
      assert Keys(d[1..]) == Keys(d)[1..];
      Get(d[1..], k)
  }

  /** `d[k] = v`: an existing key keeps its place, a new key goes last. */
  function Put<K(==), V>(d: Dict<K, V>, k: K, v: V): (r: Dict<K, V>)
    ensures k in Keys(d) ==> Keys(r) == Keys(d)
    ensures k !in Keys(d) ==> Keys(r) == Keys(d) + [k]
    ensures Distinct(Keys(d)) ==> Distinct(Keys(r))
    ensures forall e :: e in r ==> e in d || e == (k, v)
  {
    if k in Keys(d) then d[IndexOf(Keys(d), k) := (k, v)] else d + [(k, v)]
  }

  lemma PutGet<K, V>(d: Dict<K, V>, k: K, v: V, j: K)
    requires Distinct(Keys(d))
    ensures Get(Put(d, k, v), j) == if j == k then Some(v) else Get(d, j)
  {
    var r := Put(d, k, v);
    if j in Keys(r) {
      var i := IndexOf(Keys(r), j);
      if k in Keys(d) {
        var p := IndexOf(Keys(d), k);
        assert Keys(r) == Keys(d);
        assert i == p <==> j == k by {
          if i == p { assert Keys(r)[i] == j && Keys(d)[p] == k; }
          if j == k { assert Keys(d)[p] == k && Keys(d)[i] == k; }
        }
      } else {
        assert Keys(r)[..|d|] == Keys(d);
        if j != k { assert i < |d|; }
      }
    }
  }

  /** `dict(ps)`: later pairs overwrite the values of earlier ones with the same key. */
  function FromPairs<K(==,!new), V>(ps: seq<(K, V)>): (d: Dict<K, V>)
    ensures Distinct(Keys(d))
    ensures forall k :: k in Keys(d) <==> k in Keys(ps)
    ensures forall e :: e in d ==> e in ps
  {
    if ps == [] then []
    else
      var n := |ps| - 1;
      assert Keys(ps) == Keys(ps[..n]) + [ps[n].0];
      Put(FromPairs(ps[..n]), ps[n].0, ps[n].1)
  }

  /** Built from pairs whose keys are already distinct, the dict is those pairs in order. */
  lemma {:induction false} FromPairsDistinct<K(!new), V>(ps: seq<(K, V)>)
    requires Distinct(Keys(ps))
    ensures FromPairs(ps) == ps
  {
    if ps != [] {
      var n := |ps| - 1;
      LastKeyNew(ps);
      FromPairsDistinct(ps[..n]);
      PutNew(ps[..n], ps[n].0, ps[n].1);
      assert ps[..n] + [ps[n]] == ps;
    }
  }

  /** The last key of distinct keys is not among the earlier ones, which stay distinct. */
  lemma LastKeyNew<K, V>(ps: seq<(K, V)>)
    requires ps != [] && Distinct(Keys(ps))
    ensures Distinct(Keys(ps[..|ps| - 1]))
    ensures ps[|ps| - 1].0 !in Keys(ps[..|ps| - 1])
  {
    var n := |ps| - 1;
    assert Keys(ps[..n]) == Keys(ps)[..n];
    assert forall i :: 0 <= i < n ==> Keys(ps)[i] != Keys(ps)[n];
  }

  /** A new key goes after the existing entries. */
  lemma PutNew<K, V>(d: Dict<K, V>, k: K, v: V)
    requires k !in Keys(d)
    ensures Put(d, k, v) == d + [(k, v)]
  {
  }

  /** `{k: f(v) for k, v in d.items()}` for a dict `d`. */
  function MapValues<K, V, W>(d: Dict<K, V>, f: V -> W): (r: Dict<K, W>)
    ensures Keys(r) == Keys(d)
  {
    seq(|d|, i requires 0 <= i < |d| => (d[i].0, f(d[i].1)))
  }

  function Sum(s: seq<nat>): nat {
    if s == [] then 0 else Sum(s[..|s| - 1]) + s[|s| - 1]
  }

  /** `collections.Counter(xs)`: each distinct element, in order of first appearance, with its count. */
  function Counter<K(==,!new)>(xs: seq<K>): (c: Dict<K, nat>)
    ensures Distinct(Keys(c))
    ensures forall k :: k in Keys(c) <==> k in xs
  {
    if xs == [] then []
    else
      var n := |xs| - 1;
      assert xs == xs[..n] + [xs[n]];
      CounterStep(Counter(xs[..n]), xs[n])
  }

  /** Counting one more occurrence of `x`. */
  function CounterStep<K(==,!new)>(c: Dict<K, nat>, x: K): (r: Dict<K, nat>)
    ensures Distinct(Keys(c)) ==> Distinct(Keys(r))
    ensures forall k :: k in Keys(r) <==> k in Keys(c) || k == x
  {
    Put(c, x, Get(c, x).GetOr(0) + 1)
  }

  /** The counter of a sequence is the counter of all but its last element, updated by that element. */
  lemma CounterLast<K(!new)>(xs: seq<K>)
    requires xs != []
    ensures Counter(xs) == CounterStep(Counter(xs[..|xs| - 1]), xs[|xs| - 1])
  {
  }

  /** The counter's entry for every element is its number of occurrences. */
  lemma {:induction false} CounterCounts<K(!new)>(xs: seq<K>, k: K)
    ensures Get(Counter(xs), k) == if k in xs then Some(multiset(xs)[k]) else None
  {
    if xs != [] {
      var n := |xs| - 1;
      var c, x := Counter(xs[..n]), xs[n];
      CounterLast(xs);
      LastOccurrence(xs, k);
      PutGet(c, x, Get(c, x).GetOr(0) + 1, k);
      CounterCounts(xs[..n], k);
    }
  }

  /** Occurrences of `k` in a sequence: those before its last element, plus that one. */
  lemma LastOccurrence<K>(xs: seq<K>, k: K)
    requires xs != []
    ensures var n := |xs| - 1;
      && (k in xs <==> k in xs[..n] || k == xs[n])
      && multiset(xs)[k] == multiset(xs[..n])[k] + (if k == xs[n] then 1 else 0)
  {
    var n := |xs| - 1;
    assert xs == xs[..n] + [xs[n]];
    assert multiset(xs) == multiset(xs[..n]) + multiset{xs[n]};
  }

  lemma SumAppend(s: seq<nat>, x: nat)
    ensures Sum(s + [x]) == Sum(s) + x
  {
    assert (s + [x])[..|s|] == s;
  }

  lemma {:induction false} SumIncrement(s: seq<nat>, i: nat)
    requires i < |s|
    ensures Sum(s[i := s[i] + 1]) == Sum(s) + 1
  {
    var n := |s| - 1;
    if i == n {
      assert s[i := s[i] + 1][..n] == s[..n];
    } else {
      SumIncrement(s[..n], i);
      assert s[i := s[i] + 1][..n] == s[..n][i := s[i] + 1];
    }
  }

  /** The counts of a Counter add up to the number of elements counted. */
  lemma {:induction false} CounterTotal<K(!new)>(xs: seq<K>)
    ensures Sum(Values(Counter(xs))) == |xs|
  {
    if xs != [] {
      var n := |xs| - 1;
      CounterTotal(xs[..n]);
      CounterLast(xs);
      var c := Counter(xs[..n]);
      PutIncrementSum(c, xs[n]);
    }
  }

  /** Counting one more occurrence of `x` adds one to the total. */
  lemma PutIncrementSum<K(!new)>(c: Dict<K, nat>, x: K)
    ensures Sum(Values(CounterStep(c, x))) == Sum(Values(c)) + 1
  {
    var v := Get(c, x).GetOr(0) + 1;
    if x in Keys(c) {
      var i := IndexOf(Keys(c), x);
      assert Values(Put(c, x, v)) == Values(c)[i := Values(c)[i] + 1];
      SumIncrement(Values(c), i);
    } else {
      assert Values(Put(c, x, v)) == Values(c) + [1];
      SumAppend(Values(c), 1);
    }
  }

  /** The counter lists first the element met first. */
  lemma {:induction false} CounterFirstKey<K(!new)>(xs: seq<K>)
    requires xs != []
    ensures Keys(Counter(xs))[0] == xs[0]
  {
    var n := |xs| - 1;
    if n > 0 {
      assert xs[..n][0] == xs[0];
      CounterFirstKey(xs[..n]);
      var c := Counter(xs[..n]);
      assert Keys(c) != [];
      assert Keys(Counter(xs))[..|Keys(c)|] == Keys(c);
    }
  }

  /** A sequence without repetitions is as long as the set of its elements is large. */
  lemma {:induction false} DistinctCard<T>(s: seq<T>)
    requires Distinct(s)
    ensures |set x | x in s| == |s|
  {
    if s != [] {
      var t := s[1..];
      assert Distinct(t);
      DistinctCard(t);
      assert (set x | x in s) == (set x | x in t) + {s[0]};
      assert s[0] !in t;
    }
  }

  /** A counter has one entry per distinct element counted. */
  lemma CounterSize<K(!new)>(xs: seq<K>)
    ensures |Counter(xs)| == |set x | x in xs|
  {
    var ks := Keys(Counter(xs));
    DistinctCard(ks);
    assert (set x | x in ks) == (set x | x in xs);
  }
}
