/** Weighted sums, filters and grouped tallies over sequences.  The exporter's summary loops
    all have the shape `m[key(x)] += weight(x)`; `ByKey` says what such a loop computes without
    mentioning a loop, and the lemmas below say how the tallies behave. */
module Sums {

  function Sum<T>(xs: seq<T>, w: T -> real): real {
    if |xs| == 0 then 0.0 else Sum(xs[..|xs| - 1], w) + w(xs[|xs| - 1])
  }

  function Filter<T>(xs: seq<T>, p: T -> bool): seq<T> {
    if |xs| == 0 then []
    else
      var rest := Filter(xs[..|xs| - 1], p);
      if p(xs[|xs| - 1]) then rest + [xs[|xs| - 1]] else rest
  }

  /** Every element replaced by a list of elements, in order. */
  function Flat<T, U>(xs: seq<T>, f: T -> seq<U>): seq<U> {
    if |xs| == 0 then [] else Flat(xs[..|xs| - 1], f) + f(xs[|xs| - 1])
  }

  /** The constant weight: a sum of ones is a count. */
  function One<T>(x: T): real { 1.0 }

  function Having<T, K(==)>(key: T -> K, k: K): T -> bool { x => key(x) == k }

  ghost function KeySet<T, K>(xs: seq<T>, key: T -> K): set<K> { set x | x in xs :: key(x) }

  /** The total weight of each of the keys `ks`. */
  ghost function GroupSums<T, K>(xs: seq<T>, key: T -> K, w: T -> real, ks: set<K>): map<K, real> {
    map k | k in ks :: Sum(Filter(xs, Having(key, k)), w)
  }

  /** Every key that occurs, with the total weight of the elements that have it. */
  ghost function ByKey<T, K>(xs: seq<T>, key: T -> K, w: T -> real): map<K, real> {
    GroupSums(xs, key, w, KeySet(xs, key))
  }

  /** For every key that occurs, some summary `f` of the elements that have it. */
  ghost function Group<T, K, V>(xs: seq<T>, key: T -> K, f: seq<T> -> V): map<K, V> {
    map k | k in KeySet(xs, key) :: f(Filter(xs, Having(key, k)))
  }

  /** Go reads a missing numeric map entry as zero. */
  function Get<K>(m: map<K, real>, k: K): real { if k in m then m[k] else 0.0 }

  /** Go's `m[k] += v`. */
  function Bump<K>(m: map<K, real>, k: K, v: real): map<K, real> { m[k := Get(m, k) + v] }

  ghost function SumMap<K>(m: map<K, real>): real {
    if m == map[] then 0.0 else
      var k :| k in m;
      m[k] + SumMap(m - {k})
  }

  /** The sum of two tallies, entry by entry. */
  ghost function Pointwise<K>(a: map<K, real>, b: map<K, real>): map<K, real> {
    map k | k in a.Keys + b.Keys :: Get(a, k) + Get(b, k)
  }

  lemma NextPrefix<T>(xs: seq<T>, i: nat)
    requires i < |xs|
    ensures xs[..i + 1] == xs[..i] + [xs[i]]
  {}

  // ---------- sums ----------

  lemma {:induction false} SumAppend<T>(xs: seq<T>, ys: seq<T>, w: T -> real)
    ensures Sum(xs + ys, w) == Sum(xs, w) + Sum(ys, w)
  {
    if |ys| == 0 {
      assert xs + ys == xs;
    } else {
      assert (xs + ys)[..|xs + ys| - 1] == xs + ys[..|ys| - 1];
      SumAppend(xs, ys[..|ys| - 1], w);
    }
  }

  lemma SumSnoc<T>(xs: seq<T>, x: T, w: T -> real)
    ensures Sum(xs + [x], w) == Sum(xs, w) + w(x)
  {
    assert (xs + [x])[..|xs|] == xs;
  }

  lemma NextSum<T>(xs: seq<T>, i: nat, w: T -> real)
    requires i < |xs|
    ensures Sum(xs[..i + 1], w) == Sum(xs[..i], w) + w(xs[i])
  {
    NextPrefix(xs, i);
    SumSnoc(xs[..i], xs[i], w);
  }

  lemma {:induction false} SumPointwise<T>(xs: seq<T>, v: T -> real, w: T -> real)
    requires forall x :: x in xs ==> v(x) == w(x)
    ensures Sum(xs, v) == Sum(xs, w)
  {
    if |xs| > 0 { SumPointwise(xs[..|xs| - 1], v, w); }
  }

  lemma {:induction false} SumNonNegative<T>(xs: seq<T>, w: T -> real)
    requires forall x :: x in xs ==> w(x) >= 0.0
    ensures Sum(xs, w) >= 0.0
  {
    if |xs| > 0 { SumNonNegative(xs[..|xs| - 1], w); }
  }

  lemma {:induction false} SumOfOnes<T>(xs: seq<T>)
    ensures Sum(xs, One) == |xs| as real
  {
    if |xs| > 0 { SumOfOnes(xs[..|xs| - 1]); }
  }

  lemma SumInsert<T>(a: seq<T>, x: T, b: seq<T>, w: T -> real)
    ensures Sum(a + [x] + b, w) == Sum(a + b, w) + w(x)
  {
    SumAppend(a, b, w);
    SumSnoc(a, x, w);
    SumAppend(a + [x], b, w);
  }

  /** The last element of a permutation, found in the other list. */
  lemma RemoveLast<T>(xs: seq<T>, ys: seq<T>) returns (a: seq<T>, b: seq<T>)
    requires |xs| > 0 && multiset(xs) == multiset(ys)
    ensures ys == a + [xs[|xs| - 1]] + b
    ensures multiset(xs[..|xs| - 1]) == multiset(a + b)
  {
    var x := xs[|xs| - 1];
    assert x in multiset(xs);
    assert x in ys;
    var i :| 0 <= i < |ys| && ys[i] == x;
    a, b := ys[..i], ys[i + 1..];
    assert xs == xs[..|xs| - 1] + [x];
    assert ys == a + [x] + b;
    calc {
      multiset(xs[..|xs| - 1]);
      multiset(xs) - multiset{x};
      multiset(a + [x] + b) - multiset{x};
      multiset(a + b);
    }
  }

  /** A sum does not depend on the order of its terms. */
  lemma {:induction false} SumPermutation<T>(xs: seq<T>, ys: seq<T>, w: T -> real)
    requires multiset(xs) == multiset(ys)
    ensures Sum(xs, w) == Sum(ys, w)
  {
    if |xs| == 0 {
      assert |multiset(ys)| == 0;
    } else {
      var a, b := RemoveLast(xs, ys);
      SumInsert(a, xs[|xs| - 1], b, w);
      SumPermutation(xs[..|xs| - 1], a + b, w);
    }
  }

  /** `x` counted `c` times. */
  ghost function Counted(c: nat, x: real): real { c as real * x }

  lemma CountedOnce(c: nat, x: real)
    ensures Counted(c + 1, x) == Counted(c, x) + x && Counted(0, x) == 0.0
  {
    Distribute(c as real, x);
  }

  lemma Distribute(a: real, x: real)
    ensures (a + 1.0) * x == a * x + x
  {}

  // ---------- flattening ----------

  lemma FlatSnoc<T, U>(xs: seq<T>, x: T, f: T -> seq<U>)
    ensures Flat(xs + [x], f) == Flat(xs, f) + f(x)
  {
    assert (xs + [x])[..|xs|] == xs;
  }

  lemma {:induction false} FlatAppend<T, U>(xs: seq<T>, ys: seq<T>, f: T -> seq<U>)
    ensures Flat(xs + ys, f) == Flat(xs, f) + Flat(ys, f)
  {
    if |ys| == 0 {
      assert xs + ys == xs;
    } else {
      assert (xs + ys)[..|xs + ys| - 1] == xs + ys[..|ys| - 1];
      FlatAppend(xs, ys[..|ys| - 1], f);
    }
  }

  lemma FlatInsert<T, U>(a: seq<T>, x: T, b: seq<T>, f: T -> seq<U>)
    ensures multiset(Flat(a + [x] + b, f)) == multiset(Flat(a + b, f)) + multiset(f(x))
  {
    FlatAppend(a, b, f);
    FlatSnoc(a, x, f);
    FlatAppend(a + [x], b, f);
  }

  lemma {:induction false} FlatPermutation<T, U>(xs: seq<T>, ys: seq<T>, f: T -> seq<U>)
    requires multiset(xs) == multiset(ys)
    ensures multiset(Flat(xs, f)) == multiset(Flat(ys, f))
  {
    if |xs| == 0 {
      assert |multiset(ys)| == 0;
    } else {
      var a, b := RemoveLast(xs, ys);
      FlatInsert(a, xs[|xs| - 1], b, f);
      FlatPermutation(xs[..|xs| - 1], a + b, f);
    }
  }

  // ---------- filters ----------

  lemma FilterSnoc<T>(xs: seq<T>, x: T, p: T -> bool)
    ensures Filter(xs + [x], p) == Filter(xs, p) + if p(x) then [x] else []
  {
    assert (xs + [x])[..|xs|] == xs;
  }

  lemma {:induction false} FilterAppend<T>(xs: seq<T>, ys: seq<T>, p: T -> bool)
    ensures Filter(xs + ys, p) == Filter(xs, p) + Filter(ys, p)
  {
    if |ys| == 0 {
      assert xs + ys == xs;
    } else {
      assert (xs + ys)[..|xs + ys| - 1] == xs + ys[..|ys| - 1];
      FilterAppend(xs, ys[..|ys| - 1], p);
    }
  }

  lemma {:induction false} FilterMember<T>(xs: seq<T>, p: T -> bool, x: T)
    ensures x in Filter(xs, p) <==> x in xs && p(x)
  {
    if |xs| > 0 {
      FilterMember(xs[..|xs| - 1], p, x);
      assert xs == xs[..|xs| - 1] + [xs[|xs| - 1]];
    }
  }

  lemma FilterAll<T>(xs: seq<T>, p: T -> bool)
    requires forall x :: x in xs ==> p(x)
    ensures Filter(xs, p) == xs
  {
    if |xs| > 0 { FilterAll(xs[..|xs| - 1], p); }
  }

  lemma FilterNone<T>(xs: seq<T>, p: T -> bool)
    requires forall x :: x in xs ==> !p(x)
    ensures Filter(xs, p) == []
  {
    if |xs| > 0 { FilterNone(xs[..|xs| - 1], p); }
  }

  /** Two filters one after the other are one filter. */
  lemma {:induction false} FilterTwice<T>(xs: seq<T>, p: T -> bool, q: T -> bool, both: T -> bool)
    requires forall x :: x in xs ==> (both(x) <==> p(x) && q(x))
    ensures Filter(Filter(xs, p), q) == Filter(xs, both)
  {
    if |xs| > 0 {
      var ys, x := xs[..|xs| - 1], xs[|xs| - 1];
      FilterTwice(ys, p, q, both);
      FilterSnoc(Filter(ys, p), x, q);
    }
  }

  lemma FilterHaving<T, K>(xs: seq<T>, key: T -> K, k: K, x: T)
    ensures x in Filter(xs, Having(key, k)) <==> x in xs && key(x) == k
  {
    FilterMember(xs, Having(key, k), x);
    assert Having(key, k)(x) == (key(x) == k);
  }

  lemma {:induction false} FilterPointwise<T>(xs: seq<T>, p: T -> bool, q: T -> bool)
    requires forall x :: x in xs ==> p(x) == q(x)
    ensures Filter(xs, p) == Filter(xs, q)
  {
    if |xs| > 0 { FilterPointwise(xs[..|xs| - 1], p, q); }
  }

  lemma {:induction false} FilterCommutes<T>(xs: seq<T>, p: T -> bool, q: T -> bool)
    ensures Filter(Filter(xs, p), q) == Filter(Filter(xs, q), p)
  {
    if |xs| > 0 {
      var ys, x := xs[..|xs| - 1], xs[|xs| - 1];
      FilterCommutes(ys, p, q);
      FilterSnoc(Filter(ys, p), x, q);
      FilterSnoc(Filter(ys, q), x, p);
    }
  }

  lemma {:induction false} FilterMultiset<T>(xs: seq<T>, p: T -> bool, x: T)
    ensures multiset(Filter(xs, p))[x] == if p(x) then multiset(xs)[x] else 0
  {
    if |xs| > 0 {
      FilterMultiset(xs[..|xs| - 1], p, x);
      assert xs == xs[..|xs| - 1] + [xs[|xs| - 1]];
    }
  }

  lemma MultisetExtensional<T>(a: multiset<T>, b: multiset<T>)
    requires forall x :: x in a + b ==> a[x] == b[x]
    ensures a == b
  {
    assert forall x :: x !in a + b ==> a[x] == 0 && b[x] == 0;
    assert forall x :: a[x] == b[x];
  }

  lemma FilterPermutation<T>(xs: seq<T>, ys: seq<T>, p: T -> bool)
    requires multiset(xs) == multiset(ys)
    ensures multiset(Filter(xs, p)) == multiset(Filter(ys, p))
  {
    var a, b := multiset(Filter(xs, p)), multiset(Filter(ys, p));
    forall x | x in a + b ensures a[x] == b[x] {
      FilterMultiset(xs, p, x);
      FilterMultiset(ys, p, x);
    }
    MultisetExtensional(a, b);
  }

  /** Filtering by a key that does not occur leaves nothing. */
  lemma {:induction false} FilterAbsent<T, K>(xs: seq<T>, key: T -> K, k: K)
    requires k !in KeySet(xs, key)
    ensures Filter(xs, Having(key, k)) == []
  {
    if |xs| > 0 {
      var ys, x := xs[..|xs| - 1], xs[|xs| - 1];
      assert forall y :: y in ys ==> y in xs;
      assert x in xs && key(x) != k;
      FilterAbsent(ys, key, k);
    }
  }

  /** A key occurs exactly when filtering by it leaves something. */
  lemma KeyPresent<T, K>(xs: seq<T>, key: T -> K, k: K)
    ensures |Filter(xs, Having(key, k))| == 0 <==> k !in KeySet(xs, key)
  {
    if k in KeySet(xs, key) {
      var x :| x in xs && key(x) == k;
      FilterHaving(xs, key, k, x);
    } else {
      FilterAbsent(xs, key, k);
    }
  }

  lemma KeySetSnoc<T, K>(xs: seq<T>, x: T, key: T -> K)
    ensures KeySet(xs + [x], key) == KeySet(xs, key) + {key(x)}
  {
    assert forall y :: y in xs + [x] <==> y in xs || y == x;
    assert x in xs + [x];
    forall k | k in KeySet(xs, key) + {key(x)} ensures k in KeySet(xs + [x], key) {
      if k in KeySet(xs, key) {
        var y :| y in xs && key(y) == k;
        assert y in xs + [x];
      }
    }
  }

  // ---------- tallies ----------

  /** Reading a tally at any key, present or not, gives the total weight of that key. */
  lemma GetByKey<T, K>(xs: seq<T>, key: T -> K, w: T -> real, k: K)
    ensures Get(ByKey(xs, key, w), k) == Sum(Filter(xs, Having(key, k)), w)
  {
    if k !in KeySet(xs, key) { FilterAbsent(xs, key, k); }
  }

  /** One pass of a `m[key(x)] += w(x)` loop advances the tally by one element. */
  lemma ByKeySnoc<T, K>(xs: seq<T>, x: T, key: T -> K, w: T -> real)
    ensures ByKey(xs + [x], key, w) == Bump(ByKey(xs, key, w), key(x), w(x))
  {
    KeySetSnoc(xs, x, key);
    forall k | k in KeySet(xs, key) + {key(x)}
      ensures ByKey(xs + [x], key, w)[k] == Bump(ByKey(xs, key, w), key(x), w(x))[k]
    {
      FilterSnoc(xs, x, Having(key, k));
      GetByKey(xs, key, w, k);
      SumSnoc(Filter(xs, Having(key, k)), x, w);
    }
  }

  lemma KeySetPermutation<T, K>(xs: seq<T>, ys: seq<T>, key: T -> K)
    requires multiset(xs) == multiset(ys)
    ensures KeySet(xs, key) == KeySet(ys, key)
  {
    assert forall x :: x in xs <==> x in multiset(xs);
    assert forall y :: y in ys <==> y in multiset(ys);
  }

  lemma ByKeyPermutation<T, K>(xs: seq<T>, ys: seq<T>, key: T -> K, w: T -> real)
    requires multiset(xs) == multiset(ys)
    ensures ByKey(xs, key, w) == ByKey(ys, key, w)
  {
    KeySetPermutation(xs, ys, key);
    forall k | k in KeySet(xs, key) ensures ByKey(xs, key, w)[k] == ByKey(ys, key, w)[k] {
      FilterPermutation(xs, ys, Having(key, k));
      SumPermutation(Filter(xs, Having(key, k)), Filter(ys, Having(key, k)), w);
    }
  }

  lemma ByKeyAppend<T, K>(xs: seq<T>, ys: seq<T>, key: T -> K, w: T -> real)
    ensures ByKey(xs + ys, key, w) == Pointwise(ByKey(xs, key, w), ByKey(ys, key, w))
  {
    KeySetAppend(xs, ys, key);
    var a, b, both := ByKey(xs, key, w), ByKey(ys, key, w), ByKey(xs + ys, key, w);
    forall k | k in both ensures both[k] == Get(a, k) + Get(b, k) {
      GetByKeyAppend(xs, ys, key, w, k);
    }
    SameEntries(both, Pointwise(a, b));
  }

  lemma SameEntries<K>(a: map<K, real>, b: map<K, real>)
    requires a.Keys == b.Keys && forall k :: k in a ==> a[k] == b[k]
    ensures a == b
  {}

  lemma GetByKeyAppend<T, K>(xs: seq<T>, ys: seq<T>, key: T -> K, w: T -> real, k: K)
    ensures Get(ByKey(xs + ys, key, w), k) == Get(ByKey(xs, key, w), k) + Get(ByKey(ys, key, w), k)
  {
    FilterAppend(xs, ys, Having(key, k));
    SumAppend(Filter(xs, Having(key, k)), Filter(ys, Having(key, k)), w);
    GetByKey(xs, key, w, k);
    GetByKey(ys, key, w, k);
    GetByKey(xs + ys, key, w, k);
  }

  lemma KeySetAppend<T, K>(xs: seq<T>, ys: seq<T>, key: T -> K)
    ensures KeySet(xs + ys, key) == KeySet(xs, key) + KeySet(ys, key)
  {
    forall k | k in KeySet(xs, key) + KeySet(ys, key) ensures k in KeySet(xs + ys, key) {
      if k in KeySet(xs, key) {
        var x :| x in xs && key(x) == k;
        assert x in xs + ys;
      } else {
        var y :| y in ys && key(y) == k;
        assert y in xs + ys;
      }
    }
  }

  // ---------- groups ----------

  lemma GroupSnoc<T, K, V>(xs: seq<T>, x: T, key: T -> K, f: seq<T> -> V)
    ensures Group(xs + [x], key, f) == Group(xs, key, f)[key(x) := f(Filter(xs, Having(key, key(x))) + [x])]
    ensures key(x) !in Group(xs, key, f) ==> Filter(xs, Having(key, key(x))) == []
  {
    KeySetSnoc(xs, x, key);
    if key(x) !in KeySet(xs, key) { FilterAbsent(xs, key, key(x)); }
    forall k | k in KeySet(xs + [x], key)
      ensures Filter(xs + [x], Having(key, k)) ==
              if k == key(x) then Filter(xs, Having(key, k)) + [x] else Filter(xs, Having(key, k))
    {
      FilterSnoc(xs, x, Having(key, k));
    }
  }

  /** Two groupings agree when each group's summaries do. */
  lemma GroupPermutation<T, K, V>(xs: seq<T>, ys: seq<T>, key: T -> K, f: seq<T> -> V)
    requires multiset(xs) == multiset(ys)
    requires forall k :: k in KeySet(xs, key) ==> f(Filter(xs, Having(key, k))) == f(Filter(ys, Having(key, k)))
    ensures Group(xs, key, f) == Group(ys, key, f)
  {
    KeySetPermutation(xs, ys, key);
  }

  // ---------- sums over maps ----------

  lemma {:induction false} SumMapRemove<K>(m: map<K, real>, k: K)
    requires k in m
    ensures SumMap(m) == m[k] + SumMap(m - {k})
    decreases |m|
  {
    var j :| j in m && SumMap(m) == m[j] + SumMap(m - {j});
    if j != k {
      assert |m - {j}| < |m| by { assert (m - {j}).Keys == m.Keys - {j}; }
      assert |m - {k}| < |m| by { assert (m - {k}).Keys == m.Keys - {k}; }
      SumMapRemove(m - {j}, k);
      SumMapRemove(m - {k}, j);
      assert m - {j} - {k} == m - {k} - {j};
    }
  }

  lemma SumMapUpdate<K>(m: map<K, real>, k: K, v: real)
    ensures SumMap(Bump(m, k, v)) == SumMap(m) + v
  {
    var n := Bump(m, k, v);
    SumMapRemove(n, k);
    if k in m {
      SumMapRemove(m, k);
      assert n - {k} == m - {k};
    } else {
      assert n - {k} == m;
    }
  }

  lemma {:induction false} SumMapZero<K>(m: map<K, real>)
    requires forall k :: k in m ==> m[k] == 0.0
    ensures SumMap(m) == 0.0
    decreases |m|
  {
    if m != map[] {
      var k :| k in m;
      SumMapRemove(m, k);
      assert |m - {k}| < |m| by { assert (m - {k}).Keys == m.Keys - {k}; }
      SumMapZero(m - {k});
    }
  }

  /** Conservation: the totals of the groups add up to the total of the list, for any grouping
      and any set of groups that covers it. */
  lemma {:induction false} GroupTotal<T, K>(xs: seq<T>, key: T -> K, w: T -> real, ks: set<K>)
    requires KeySet(xs, key) <= ks
    ensures SumMap(GroupSums(xs, key, w, ks)) == Sum(xs, w)
  {
    var m := GroupSums(xs, key, w, ks);
    if |xs| == 0 {
      SumMapZero(m);
    } else {
      var ys, x := xs[..|xs| - 1], xs[|xs| - 1];
      assert xs == ys + [x];
      KeySetSnoc(ys, x, key);
      var n := GroupSums(ys, key, w, ks);
      GroupTotal(ys, key, w, ks);
      assert m == Bump(n, key(x), w(x)) by {
        forall k | k in ks ensures m[k] == Bump(n, key(x), w(x))[k] {
          FilterSnoc(ys, x, Having(key, k));
          SumSnoc(Filter(ys, Having(key, k)), x, w);
        }
      }
      SumMapUpdate(n, key(x), w(x));
    }
  }

  /** A tally conserves the total weight. */
  lemma TallyTotal<T, K>(xs: seq<T>, key: T -> K, w: T -> real)
    ensures SumMap(ByKey(xs, key, w)) == Sum(xs, w)
  {
    GroupTotal(xs, key, w, KeySet(xs, key));
  }

  lemma {:induction false} SumMapNonNegative<K>(m: map<K, real>)
    requires forall k :: k in m ==> m[k] >= 0.0
    ensures SumMap(m) >= 0.0
    decreases |m|
  {
    if m != map[] {
      var k :| k in m;
      SumMapRemove(m, k);
      assert |m - {k}| < |m| by { assert (m - {k}).Keys == m.Keys - {k}; }
      SumMapNonNegative(m - {k});
    }
  }
}
