/** Totals over finite maps, independent of the order in which a loop visits the keys. */
module Sums {

  ghost function Pick<K(!new)>(keys: set<K>): (k: K)
    requires keys != {}
    ensures k in keys
  {
    var k :| k in keys;
    k
  }

  /** The sum of the weights of `m`. */
  ghost function Total<K(!new)>(m: map<K, int>): int
    decreases |m|
  {
    if m == map[] then 0
    else
      var k := Pick(m.Keys);
      m[k] + Total(m - {k})
  }

  lemma {:induction false} TotalExtract<K(!new)>(m: map<K, int>, k: K)
    requires k in m
    ensures Total(m) == m[k] + Total(m - {k})
    decreases |m|
  {
    var p := Pick(m.Keys);
    if p != k {
      TotalExtract(m - {p}, k);
      TotalExtract(m - {k}, p);
      assert m - {p} - {k} == m - {k} - {p};
    }
  }

  lemma TotalUpdate<K(!new)>(m: map<K, int>, k: K, v: int)
    ensures Total(m[k := v]) == Total(m) - (if k in m then m[k] else 0) + v
  {
    var n := m[k := v];
    TotalExtract(n, k);
    assert n - {k} == m - {k};
    if k in m {
      TotalExtract(m, k);
    } else {
      assert m - {k} == m;
    }
  }

  lemma TotalRemove<K(!new)>(m: map<K, int>, k: K)
    ensures Total(m - {k}) == Total(m) - (if k in m then m[k] else 0)
  {
    if k in m {
      TotalExtract(m, k);
    } else {
      assert m - {k} == m;
    }
  }

  lemma {:induction false} TotalNonNegative<K(!new)>(m: map<K, int>)
    requires forall k :: k in m ==> 0 <= m[k]
    ensures 0 <= Total(m)
    decreases |m|
  {
    if m != map[] {
      TotalNonNegative(m - {Pick(m.Keys)});
    }
  }

  lemma {:induction false} TotalBound<K(!new)>(m: map<K, int>, bound: int)
    requires forall k :: k in m ==> m[k] <= bound
    ensures Total(m) <= |m| * bound
    decreases |m|
  {
    if m != map[] {
      var p := Pick(m.Keys);
      SizeWithout(m, p);
      TotalBound(m - {p}, bound);
      assert (|m| - 1) * bound + bound == |m| * bound;
    }
  }

  /** Raising weights raises the total, and keeps it only when no weight moved. */
  lemma {:induction false} TotalMonotone<K(!new)>(low: map<K, int>, high: map<K, int>)
    requires low.Keys == high.Keys
    requires forall k :: k in low ==> low[k] <= high[k]
    ensures Total(low) <= Total(high)
    ensures Total(low) == Total(high) <==> low == high
    decreases |low|
  {
    if low != map[] {
      var p := Pick(low.Keys);
      TotalMonotone(low - {p}, high - {p});
      if Total(low) == Total(high) {
        assert forall k :: k in low && k != p ==> low[k] == (low - {p})[k];
        assert forall k :: k in high && k != p ==> high[k] == (high - {p})[k];
        assert low == high;
      }
    } else {
      assert high == map[];
    }
  }

  /** Weights carried one by one, under a renaming of their keys, into positive ones that are no smaller. */
  ghost predicate Carries<K(!new), L(!new)>(v: map<K, int>, w: map<L, int>, from: map<K, L>) {
    && from.Keys == v.Keys
    && (forall k :: k in v ==> from[k] in w && v[k] <= w[from[k]])
    && (forall j, k :: j in from && k in from && from[j] == from[k] ==> j == k)
    && (forall l :: l in w ==> 1 <= w[l])
  }

  lemma CarriesRest<K(!new), L(!new)>(v: map<K, int>, w: map<L, int>, from: map<K, L>, p: K)
    requires Carries(v, w, from) && p in v
    ensures p in from && from[p] in w && v[p] <= w[from[p]]
    ensures Carries(v - {p}, w - {from[p]}, from - {p})
  {
  }

  lemma CarriesNone<K(!new), L(!new)>(v: map<K, int>, w: map<L, int>, from: map<K, L>)
    requires Carries(v, w, from) && v == map[]
    ensures |w| <= Total(w)
    decreases |w|
  {
    if w != map[] {
      var l := Pick(w.Keys);
      SizeWithout(w, l);
      CarriesNone(v, w - {l}, from);
    }
  }

  /** The carried weights and one for each of the others fit into the total. */
  lemma {:induction false} TotalInto<K(!new), L(!new)>(v: map<K, int>, w: map<L, int>, from: map<K, L>)
    requires Carries(v, w, from)
    ensures |v| <= |w| && Total(v) + (|w| - |v|) <= Total(w)
    decreases |v|
  {
    hide Carries;
    if v == map[] {
      CarriesNone(v, w, from);
    } else {
      var p := Pick(v.Keys);
      CarriesRest(v, w, from, p);
      TotalExtract(v, p);
      TotalExtract(w, from[p]);
      SizeWithout(v, p);
      SizeWithout(w, from[p]);
      TotalInto(v - {p}, w - {from[p]}, from - {p});
    }
  }

  ghost predicate CarriedWhole<K(!new), L(!new)>(v: map<K, int>, w: map<L, int>, from: map<K, L>, l: L)
    requires l in w
  {
    exists k :: k in from && k in v && from[k] == l && v[k] == w[l]
  }

  /** Equal totals leave no weight out and lose nothing of any. */
  lemma {:induction false} TotalIntoExact<K(!new), L(!new)>(v: map<K, int>, w: map<L, int>, from: map<K, L>)
    requires Carries(v, w, from) && Total(v) == Total(w)
    ensures forall l :: l in w ==> CarriedWhole(v, w, from, l)
    decreases |v|
  {
    hide Carries;
    if v == map[] {
      CarriesNone(v, w, from);
      assert |w| == |w.Keys|;
    } else {
      var p := Pick(v.Keys);
      CarriesRest(v, w, from, p);
      TotalExtract(v, p);
      TotalExtract(w, from[p]);
      TotalInto(v - {p}, w - {from[p]}, from - {p});
      TotalIntoExact(v - {p}, w - {from[p]}, from - {p});
      forall l | l in w ensures CarriedWhole(v, w, from, l) {
        if l != from[p] {
          assert CarriedWhole(v - {p}, w - {from[p]}, from - {p}, l);
        }
      }
    }
  }

  /** One more pending key dropped from a map whose already visited keys are gone. */
  lemma DropOneMore<K(!new), V(!new)>(m: map<K, V>, chosen: set<K>, pending: set<K>, k: K)
    requires pending <= chosen && k in pending
    ensures m - (chosen - (pending - {k})) == m - (chosen - pending) - {k}
  {
    assert chosen - (pending - {k}) == (chosen - pending) + {k};
  }

  lemma SizeWithout<K(!new), V(!new)>(m: map<K, V>, k: K)
    requires k in m
    ensures |m - {k}| == |m| - 1
  {
    assert (m - {k}).Keys == m.Keys - {k};
    assert |m| == |m.Keys| && |m - {k}| == |(m - {k}).Keys|;
  }

  lemma SizeWith<K(!new), V(!new)>(m: map<K, V>, k: K, v: V)
    ensures |m[k := v]| == |m| + (if k in m then 0 else 1)
  {
    assert m[k := v].Keys == m.Keys + {k};
    assert |m| == |m.Keys| && |m[k := v]| == |m[k := v].Keys|;
  }

  lemma SubsetSize<T>(a: set<T>, b: set<T>)
    requires a <= b
    ensures |a| <= |b|
  {
    assert b == a + (b - a) && |b| == |a| + |b - a|;
  }

  // ----- the entries of a map, written one after the other -----

  /** Of entries with one key the last one counts. */
  function MapOf<K, V>(pairs: seq<(K, V)>): map<K, V> {
    if pairs == [] then map[] else MapOf(pairs[..|pairs| - 1])[pairs[|pairs| - 1].0 := pairs[|pairs| - 1].1]
  }

  /** `pairs` lists every entry of `m` once, in some order. */
  ghost predicate Lists<K, V>(pairs: seq<(K, V)>, m: map<K, V>) {
    && (forall i, j :: 0 <= i < j < |pairs| ==> pairs[i].0 != pairs[j].0)
    && (forall i :: 0 <= i < |pairs| ==> pairs[i].0 in m && m[pairs[i].0] == pairs[i].1)
    && |pairs| == |m|
  }

  /** In whatever order a map's entries are written, they give the map. */
  lemma {:induction false} MapOfEntries<K(!new), V(!new)>(pairs: seq<(K, V)>, m: map<K, V>)
    requires Lists(pairs, m)
    ensures MapOf(pairs) == m
    decreases |pairs|
  {
    if pairs == [] {
      assert m == map[];
    } else {
      var last := pairs[|pairs| - 1];
      SizeWithout(m, last.0);
      MapOfEntries(pairs[..|pairs| - 1], m - {last.0});
      assert (m - {last.0})[last.0 := last.1] == m;
    }
  }

  // ----- a loop that visits the keys of a map in any order -----

  /** The weight of the keys not yet visited. */
  ghost function Remaining<K(!new)>(w: map<K, int>, pending: set<K>): int {
    Total(w - (w.Keys - pending))
  }

  lemma RemainingEnds<K(!new)>(w: map<K, int>)
    ensures Remaining(w, w.Keys) == Total(w) && Remaining(w, {}) == 0
  {
    assert w - (w.Keys - w.Keys) == w;
    assert w - (w.Keys - {}) == map[];
  }

  lemma RemainingStep<K(!new)>(w: map<K, int>, pending: set<K>, k: K)
    requires pending <= w.Keys && k in pending
    ensures Remaining(w, pending) == w[k] + Remaining(w, pending - {k})
  {
    TotalRemove(w - (w.Keys - pending), k);
    DropOneMore(w, w.Keys, pending, k);
  }
}
