/**
 * The Kotlin collection operations both services rely on: `filter` on
 * lists, and the insertion order of a `LinkedHashMap` (what `mutableMapOf`
 * and `toMap` build), kept as the map beside its keys in order.
 */
module Collections {

  /** `filter`: the elements satisfying `p`, in order. */
  function Filter<T>(xs: seq<T>, p: T -> bool): (r: seq<T>)
    ensures |r| <= |xs|
    ensures forall i :: 0 <= i < |r| ==> p(r[i])
  {
    if xs == [] then []
    else (if p(xs[0]) then [xs[0]] else []) + Filter(xs[1..], p)
  }

  /** An element is kept iff it is in the list and satisfies `p`. */
  lemma {:induction false} FilterMembers<T>(xs: seq<T>, p: T -> bool, x: T)
    ensures x in Filter(xs, p) <==> x in xs && p(x)
    decreases |xs|
  {
    if xs != [] {
      FilterMembers(xs[1..], p, x);
      assert xs == [xs[0]] + xs[1..];
    }
  }

  /** Nothing is dropped iff every element satisfies `p`. */
  lemma {:induction false} FilterKeepsAll<T>(xs: seq<T>, p: T -> bool)
    ensures |Filter(xs, p)| == |xs| <==> forall i :: 0 <= i < |xs| ==> p(xs[i])
    decreases |xs|
  {
    if xs != [] {
      FilterKeepsAll(xs[1..], p);
      if forall i :: 0 <= i < |xs| ==> p(xs[i]) {
        assert forall i :: 0 <= i < |xs| - 1 ==> p(xs[1..][i]);
      } else if p(xs[0]) {
        var i :| 0 <= i < |xs| && !p(xs[i]);
        assert !p(xs[1..][i - 1]);
      }
    }
  }

  /** `partition`: with `q` the negation of `p`, every element lands on exactly one side. */
  lemma {:induction false} PartitionSizes<T>(xs: seq<T>, p: T -> bool, q: T -> bool)
    requires forall i :: 0 <= i < |xs| ==> (q(xs[i]) <==> !p(xs[i]))
    ensures |Filter(xs, p)| + |Filter(xs, q)| == |xs|
    decreases |xs|
  {
    if xs != [] {
      assert forall i :: 0 <= i < |xs| - 1 ==> xs[1..][i] == xs[i + 1];
      PartitionSizes(xs[1..], p, q);
    }
  }

  /** Filtering a list with one more element at the end keeps it iff it satisfies `p`. */
  lemma {:induction false} FilterSnoc<T>(xs: seq<T>, p: T -> bool, x: T)
    ensures Filter(xs + [x], p) == Filter(xs, p) + (if p(x) then [x] else [])
    decreases |xs|
  {
    if xs == [] {
      assert [x][1..] == [];
    } else {
      assert (xs + [x])[1..] == xs[1..] + [x];
      FilterSnoc(xs[1..], p, x);
    }
  }

  /** When no element satisfies `p`, the filter is empty. */
  lemma {:induction false} NothingAllowed<T>(xs: seq<T>, p: T -> bool)
    requires forall i :: 0 <= i < |xs| ==> !p(xs[i])
    ensures Filter(xs, p) == []
    decreases |xs|
  {
    if xs != [] {
      assert forall i :: 0 <= i < |xs| - 1 ==> !p(xs[1..][i]);
      NothingAllowed(xs[1..], p);
    }
  }

  // ---------------------------------------------------------------------
  // Insertion-ordered maps

  /** The keys in `order` are exactly those of `m`, each once: the insertion order of the map. */
  predicate Ordered<K, V>(m: map<K, V>, order: seq<K>) {
    && (forall k :: k in m ==> k in order)
    && (forall i :: 0 <= i < |order| ==> order[i] in m)
    && (forall i, j :: 0 <= i < j < |order| ==> order[i] != order[j])
  }

  /** `m[k] = v`: a new key goes last, a present one keeps its place. */
  function Put<K, V>(m: map<K, V>, order: seq<K>, k: K, v: V): (r: (map<K, V>, seq<K>))
    requires Ordered(m, order)
    ensures Ordered(r.0, r.1) && r.0 == m[k := v]
    ensures |order| <= |r.1| && r.1[..|order|] == order
  {
    (m[k := v], if k in m then order else order + [k])
  }

  /** `toMap()` and repeated `put`: every pair stored in turn. */
  function PutAll<K, V>(m: map<K, V>, order: seq<K>, pairs: seq<(K, V)>): (r: (map<K, V>, seq<K>))
    requires Ordered(m, order)
    ensures Ordered(r.0, r.1)
    decreases |pairs|
  {
    if pairs == [] then (m, order)
    else
      var (m', order') := Put(m, order, pairs[0].0, pairs[0].1);
      PutAll(m', order', pairs[1..])
  }

  /** After storing the pairs, the keys are the old ones and those of the pairs. */
  lemma {:induction false} PutAllKeys<K, V>(m: map<K, V>, order: seq<K>, pairs: seq<(K, V)>, k: K)
    requires Ordered(m, order)
    ensures k in PutAll(m, order, pairs).0 <==> k in m || exists i :: 0 <= i < |pairs| && pairs[i].0 == k
    decreases |pairs|
  {
    if pairs != [] {
      var (m', order') := Put(m, order, pairs[0].0, pairs[0].1);
      PutAllKeys(m', order', pairs[1..], k);
      if exists i :: 0 <= i < |pairs| && pairs[i].0 == k {
        var i :| 0 <= i < |pairs| && pairs[i].0 == k;
        if i > 0 {
          assert pairs[1..][i - 1].0 == k;
        }
      }
      if exists i :: 0 <= i < |pairs| - 1 && pairs[1..][i].0 == k {
        var i :| 0 <= i < |pairs| - 1 && pairs[1..][i].0 == k;
        assert pairs[i + 1].0 == k;
      }
    }
  }

  /** The elements of a list, as a set. */
  function Elems<T>(xs: seq<T>): set<T> {
    set x | x in xs
  }

  /** `filterNot { it in s }` on the keys: the order without the keys in `s`. */
  function Without<K>(order: seq<K>, s: set<K>): (r: seq<K>)
    ensures |r| <= |order|
    ensures forall x :: x in r ==> x in order && x !in s
    ensures forall x :: x in order && x !in s ==> x in r
  {
    if order == [] then []
    else (if order[0] in s then [] else [order[0]]) + Without(order[1..], s)
  }

  /** Dropping one set of keys and then another drops both. */
  lemma {:induction false} WithoutTwice<K>(order: seq<K>, a: set<K>, b: set<K>)
    ensures Without(Without(order, a), b) == Without(order, a + b)
    decreases |order|
  {
    if order != [] {
      var x, rest := order[0], order[1..];
      WithoutTwice(rest, a, b);
      var w := Without(rest, a);
      if x in a {
        assert Without(order, a) == w;
      } else {
        assert Without(order, a) == [x] + w;
        assert ([x] + w)[0] == x && ([x] + w)[1..] == w;
        assert Without([x] + w, b) == (if x in b then [] else [x]) + Without(w, b);
      }
    }
  }

  /** Dropping keys the order does not hold changes nothing. */
  lemma {:induction false} WithoutNone<K>(order: seq<K>, s: set<K>)
    requires forall i :: 0 <= i < |order| ==> order[i] !in s
    ensures Without(order, s) == order
    decreases |order|
  {
    if order != [] {
      WithoutNone(order[1..], s);
      assert [order[0]] + order[1..] == order;
    }
  }

  /** Removing keys from the map and from its order keeps the two in step. */
  lemma {:induction false} WithoutOrdered<K, V>(m: map<K, V>, order: seq<K>, s: set<K>)
    requires Ordered(m, order)
    ensures Ordered(m - s, Without(order, s))
    decreases |order|
  {
    if order != [] {
      var m' := m - {order[0]};
      assert forall i :: 0 <= i < |order| - 1 ==> order[1..][i] == order[i + 1];
      assert order[0] !in order[1..];
      assert Ordered(m', order[1..]);
      WithoutOrdered(m', order[1..], s);
      assert m' - s == (m - s) - {order[0]};
    }
  }

  /** `Without` is the filter that keeps the keys outside `s`. */
  lemma {:induction false} WithoutIsFilter<K>(order: seq<K>, s: set<K>, keep: K -> bool)
    requires forall x :: keep(x) == (x !in s)
    ensures Without(order, s) == Filter(order, keep)
    decreases |order|
  {
    if order != [] {
      WithoutIsFilter(order[1..], s, keep);
    }
  }

  /** `m.remove(k)` for every key of `ks` in turn: the keys leave the map and the order; the others keep theirs. */
  function RemoveAll<K, V>(m: map<K, V>, order: seq<K>, ks: seq<K>): (r: (map<K, V>, seq<K>))
    requires Ordered(m, order)
    ensures Ordered(r.0, r.1)
    ensures forall k :: k in r.0 ==> k in m && k !in ks
    ensures forall k :: k in m && k !in ks ==> k in r.0
    ensures forall k :: k in r.0 ==> r.0[k] == m[k]
    ensures r.1 == Filter(order, k => k !in ks)
  {
    WithoutOrdered(m, order, Elems(ks));
    WithoutIsFilter(order, Elems(ks), k => k !in ks);
    (m - Elems(ks), Without(order, Elems(ks)))
  }
}
