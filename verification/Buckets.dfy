/** Lists kept per key, as both unspent indexes are. A list may be reordered
    freely, so what an index means is the set of (key, element) pairs it holds. */
module Buckets {
  function Bucket<K, E>(m: map<K, seq<E>>, k: K): seq<E> {
    if k in m then m[k] else []
  }

  /** Writing lists back: an empty list becomes a missing key. */
  function Normalize<K, E>(m: map<K, seq<E>>): map<K, seq<E>> {
    map k | k in m && m[k] != [] :: m[k]
  }

  /** Writing a cache of lists over the store it was loaded from. */
  function Flush<K, E>(store: map<K, seq<E>>, cache: map<K, seq<E>>): map<K, seq<E>> {
    map k | k in store.Keys + cache.Keys && (k in cache ==> cache[k] != []) ::
      if k in cache then cache[k] else store[k]
  }

  lemma FlushNormalizes<K, E>(store: map<K, seq<E>>, cache: map<K, seq<E>>)
    requires NoEmptyList(store)
    ensures Flush(store, cache) == Normalize(store + cache)
  {
  }

  ghost predicate NoEmptyList<K, E>(m: map<K, seq<E>>) {
    forall k | k in m :: m[k] != []
  }

  /** `m` holds exactly the pairs of `s`, each exactly once. */
  ghost predicate Holds<K(!new), E(!new)>(m: map<K, seq<E>>, s: set<(K, E)>) {
    forall k, e :: multiset(Bucket(m, k))[e] == if (k, e) in s then 1 else 0
  }

  /** Equal up to the order of each list. */
  ghost predicate SameBags<K, E>(m: map<K, seq<E>>, m': map<K, seq<E>>) {
    && m.Keys == m'.Keys
    && forall k | k in m :: multiset(m[k]) == multiset(m'[k])
  }

  /** Removal as done on persist: the last element takes the free place. */
  function SwapRemove<E>(l: seq<E>, p: nat): seq<E>
    requires p < |l|
  {
    l[p := l[|l| - 1]][..|l| - 1]
  }

  /** Removal as done on rollback: the rest moves up. */
  function Splice<E>(l: seq<E>, p: nat): seq<E>
    requires p < |l|
  {
    l[..p] + l[p + 1..]
  }

  lemma SwapRemoveIs<E>(l: seq<E>, p: nat)
    requires p < |l|
    ensures
      var n := |l| - 1;
      SwapRemove(l, p) == if p == n then l[..n] else l[..p] + [l[n]] + l[p + 1..n]
  {
  }

  lemma SwapRemoveBag<E>(l: seq<E>, p: nat)
    requires p < |l|
    ensures multiset(SwapRemove(l, p)) == multiset(l) - multiset{l[p]}
  {
    var front, last := l[..|l| - 1], l[|l| - 1];
    assert l == front + [last];
    if p < |front| {
      assert SwapRemove(l, p) == front[p := last];
    } else {
      assert SwapRemove(l, p) == front;
    }
  }

  lemma SpliceBag<E>(l: seq<E>, p: nat)
    requires p < |l|
    ensures multiset(Splice(l, p)) == multiset(l) - multiset{l[p]}
  {
    assert l == l[..p] + [l[p]] + l[p + 1..];
  }

  lemma HoldsMember<K(!new), E(!new)>(m: map<K, seq<E>>, s: set<(K, E)>, k: K, e: E)
    requires Holds(m, s)
    ensures e in Bucket(m, k) <==> (k, e) in s
  {
    assert e in Bucket(m, k) <==> multiset(Bucket(m, k))[e] > 0;
  }

  lemma HoldsInsert<K(!new), E(!new)>(m: map<K, seq<E>>, s: set<(K, E)>, k: K, e: E)
    requires Holds(m, s) && (k, e) !in s
    ensures Holds(m[k := Bucket(m, k) + [e]], s + {(k, e)})
  {
  }

  lemma HoldsRemove<K(!new), E(!new)>(m: map<K, seq<E>>, s: set<(K, E)>, k: K, p: nat, l: seq<E>)
    requires Holds(m, s) && p < |Bucket(m, k)|
    requires multiset(l) == multiset(Bucket(m, k)) - multiset{Bucket(m, k)[p]}
    ensures (k, Bucket(m, k)[p]) in s
    ensures Holds(m[k := l], s - {(k, Bucket(m, k)[p])})
  {
    HoldsMember(m, s, k, Bucket(m, k)[p]);
  }

  lemma HoldsNormalize<K(!new), E(!new)>(m: map<K, seq<E>>, s: set<(K, E)>)
    requires Holds(m, s)
    ensures Holds(Normalize(m), s) && NoEmptyList(Normalize(m))
  {
    forall k ensures Bucket(Normalize(m), k) == Bucket(m, k) {
    }
  }

  /** The pairs determine an index up to list order. */
  lemma HoldsDetermines<K(!new), E(!new)>(m: map<K, seq<E>>, m': map<K, seq<E>>, s: set<(K, E)>)
    requires Holds(m, s) && NoEmptyList(m)
    requires Holds(m', s) && NoEmptyList(m')
    ensures SameBags(m, m')
  {
    forall k ensures multiset(Bucket(m, k)) == multiset(Bucket(m', k)) {
      assert forall e :: multiset(Bucket(m, k))[e] == multiset(Bucket(m', k))[e];
    }
    forall k ensures k in m <==> k in m' {
      if k in m {
        assert m[k][0] in multiset(Bucket(m', k));
      }
      if k in m' {
        assert m'[k][0] in multiset(Bucket(m, k));
      }
    }
    forall k | k in m ensures multiset(m[k]) == multiset(m'[k]) {
      assert m[k] == Bucket(m, k) && m'[k] == Bucket(m', k);
    }
  }

  lemma SameBagsHolds<K(!new), E(!new)>(m: map<K, seq<E>>, m': map<K, seq<E>>, s: set<(K, E)>)
    requires SameBags(m, m') && Holds(m, s) && NoEmptyList(m)
    ensures Holds(m', s) && NoEmptyList(m')
  {
    forall k ensures multiset(Bucket(m, k)) == multiset(Bucket(m', k)) {
    }
    forall k | k in m' ensures m'[k] != [] {
      assert m[k][0] in multiset(m'[k]);
    }
  }

  // Lists that hold some pairs beside a set

  /** `m` holds the pairs of `s`, each once, and those of `extra` as often as they
      occur there. */
  ghost predicate HoldsBeside<K(!new), E(!new)>(m: map<K, seq<E>>, s: set<(K, E)>, extra: multiset<(K, E)>) {
    forall k, e :: multiset(Bucket(m, k))[e] == (if (k, e) in s then 1 else 0) + extra[(k, e)]
  }

  lemma HoldsBesideNothing<K(!new), E(!new)>(m: map<K, seq<E>>, s: set<(K, E)>)
    requires Holds(m, s)
    ensures HoldsBeside(m, s, multiset{})
  {
  }

  lemma BesideMember<K(!new), E(!new)>(m: map<K, seq<E>>, s: set<(K, E)>, extra: multiset<(K, E)>, k: K, e: E)
    requires HoldsBeside(m, s, extra)
    ensures e in Bucket(m, k) <==> (k, e) in s || (k, e) in extra
  {
    assert e in Bucket(m, k) <==> multiset(Bucket(m, k))[e] > 0;
  }

  lemma BucketUpdated<K, E>(m: map<K, seq<E>>, k: K, l: seq<E>, k': K)
    ensures Bucket(m[k := l], k') == if k' == k then l else Bucket(m, k')
  {
  }

  lemma CountAppended<E>(l: seq<E>, e: E, e': E)
    ensures multiset(l + [e])[e'] == multiset(l)[e'] + if e' == e then 1 else 0
  {
  }

  lemma BesideAdd<K(!new), E(!new)>(m: map<K, seq<E>>, s: set<(K, E)>, extra: multiset<(K, E)>, k: K, e: E)
    requires HoldsBeside(m, s, extra)
    ensures HoldsBeside(m[k := Bucket(m, k) + [e]], s, extra + multiset{(k, e)})
  {
    var l := Bucket(m, k) + [e];
    forall k', e'
      ensures multiset(Bucket(m[k := l], k'))[e'] == (if (k', e') in s then 1 else 0) + (extra + multiset{(k, e)})[(k', e')]
    {
      BucketUpdated(m, k, l, k');
      CountAppended(Bucket(m, k), e, e');
      assert multiset(Bucket(m, k'))[e'] == (if (k', e') in s then 1 else 0) + extra[(k', e')];
    }
  }

  lemma BesideRemove<K(!new), E(!new)>(m: map<K, seq<E>>, s: set<(K, E)>, extra: multiset<(K, E)>, k: K, p: nat, l: seq<E>)
    requires HoldsBeside(m, s, extra) && p < |Bucket(m, k)| && (k, Bucket(m, k)[p]) in s
    requires multiset(l) == multiset(Bucket(m, k)) - multiset{Bucket(m, k)[p]}
    ensures HoldsBeside(m[k := l], s - {(k, Bucket(m, k)[p])}, extra)
  {
    var listed, e := Bucket(m, k), Bucket(m, k)[p];
    assert e in listed && multiset(listed)[e] > 0;
    forall k', e'
      ensures multiset(Bucket(m[k := l], k'))[e'] == (if (k', e') in s - {(k, e)} then 1 else 0) + extra[(k', e')]
    {
      BucketUpdated(m, k, l, k');
      assert multiset(l)[e'] == multiset(listed)[e'] - if e' == e then 1 else 0;
      assert multiset(Bucket(m, k'))[e'] == (if (k', e') in s then 1 else 0) + extra[(k', e')];
    }
  }

  lemma BesideNormalize<K(!new), E(!new)>(m: map<K, seq<E>>, s: set<(K, E)>, extra: multiset<(K, E)>)
    requires HoldsBeside(m, s, extra)
    ensures HoldsBeside(Normalize(m), s, extra) && NoEmptyList(Normalize(m))
  {
    forall k ensures Bucket(Normalize(m), k) == Bucket(m, k) {
    }
  }
}
