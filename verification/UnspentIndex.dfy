/** The index from a transaction hash to the indexes of its unspent outputs.
    Unlike the UTXO index it never reads the store for a transaction's own list
    and says nothing when a spent index is missing. */
module UnspentIndex {
  import opened Bytes
  import opened Types
  import opened Buckets
  import opened Ledger
  import U = UtxoIndex

  type IndexLists = map<Uint256, seq<uint16>>

  /** Position of the first occurrence, or the length if there is none. */
  function FindIndex(l: seq<uint16>, i: uint16): (p: nat)
    ensures p <= |l|
    ensures p < |l| ==> l[p] == i
    ensures i in l ==> p < |l|
  {
    if l == [] || l[0] == i then 0 else 1 + FindIndex(l[1..], i)
  }

  // Persisting: `cache` holds the lists touched so far.

  function OwnOutputs(cache: IndexLists, tx: Tx, i: nat): IndexLists
    requires i <= |tx.outputs|
    decreases |tx.outputs| - i
  {
    if i == |tx.outputs| then cache
    else OwnOutputs(cache[tx.hash := Bucket(cache, tx.hash) + [ToUint16(i)]], tx, i + 1)
  }

  function SpendOne(store: IndexLists, cache: IndexLists, o: Outpoint): Result<IndexLists> {
    if o.txid !in cache && o.txid !in store then Err(NoUnspentList)
    else
      var l := if o.txid in cache then cache[o.txid] else store[o.txid];
      var p := FindIndex(l, o.index);
      Ok(cache[o.txid := if p < |l| then SwapRemove(l, p) else l])
  }

  function SpendAll(store: IndexLists, cache: IndexLists, spends: seq<Outpoint>): Result<IndexLists>
    decreases spends
  {
    if spends == [] then Ok(cache)
    else
      var cache' :- SpendOne(store, cache, spends[0]);
      SpendAll(store, cache', spends[1..])
  }

  function PersistTx(store: IndexLists, cache: IndexLists, tx: Tx): Result<IndexLists> {
    SpendAll(store, OwnOutputs(cache, tx, 0), tx.Spends())
  }

  function PersistTxs(store: IndexLists, cache: IndexLists, s: seq<Tx>): Result<IndexLists>
    decreases s
  {
    if s == [] then Ok(cache)
    else
      var cache' :- PersistTx(store, cache, s[0]);
      PersistTxs(store, cache', s[1..])
  }

  function PersistUnspent(store: IndexLists, s: seq<Tx>): Result<IndexLists> {
    var cache :- PersistTxs(store, map[], s);
    Ok(Flush(store, cache))
  }

  // Rolling back: the block's own lists are deleted, its inputs put back.

  function RestoreOne(store: IndexLists, cache: IndexLists, o: Outpoint): IndexLists {
    cache[o.txid := (if o.txid in cache then cache[o.txid] else Bucket(store, o.txid)) + [o.index]]
  }

  function RestoreAll(store: IndexLists, cache: IndexLists, spends: seq<Outpoint>): IndexLists
    decreases spends
  {
    if spends == [] then cache else RestoreAll(store, RestoreOne(store, cache, spends[0]), spends[1..])
  }

  function RollbackUnspent(store: IndexLists, s: seq<Tx>): IndexLists {
    Flush(store - Hashes(s), RestoreAll(store, map[], BlockSpends(s)))
  }

  /** Spending an index: it must have a list, from this block if there is one; an
      index that is not listed is passed over. */
  lemma SpendRule(store: IndexLists, cache: IndexLists, o: Outpoint)
    ensures
      var r, listed := SpendOne(store, cache, o), if o.txid in cache then Bucket(cache, o.txid) else Bucket(store, o.txid);
      && (r.Err? <==> o.txid !in cache && o.txid !in store)
      && (r.Err? ==> r.error == NoUnspentList)
      && (r.Ok? ==> r.value.Keys == cache.Keys + {o.txid} && forall t | t in cache && t != o.txid :: r.value[t] == cache[t])
      && (r.Ok? && o.index !in listed ==> r.value[o.txid] == listed)
      && (r.Ok? && o.index in listed ==> multiset(r.value[o.txid]) == multiset(listed) - multiset{o.index})
  {
    var l := if o.txid in cache then Bucket(cache, o.txid) else Bucket(store, o.txid);
    var p := FindIndex(l, o.index);
    if p < |l| {
      SwapRemoveBag(l, p);
    }
  }

  /** Restoring an index: to the end of its list, from the store when not yet touched. */
  lemma RestoreRule(store: IndexLists, cache: IndexLists, o: Outpoint)
    ensures
      var cache' := RestoreOne(store, cache, o);
      && cache'.Keys == cache.Keys + {o.txid}
      && (forall t | t in cache && t != o.txid :: cache'[t] == cache[t])
      && cache'[o.txid] == (if o.txid in cache then cache[o.txid] else if o.txid in store then store[o.txid] else []) + [o.index]
  {
  }

  /** A transaction's own list is its output indexes in order. */
  lemma {:induction false} OwnList(cache: IndexLists, tx: Tx, i: nat)
    requires i <= |tx.outputs| <= 0x1_0000
    ensures
      var l, before := Bucket(OwnOutputs(cache, tx, i), tx.hash), Bucket(cache, tx.hash);
      && |l| == |before| + |tx.outputs| - i && l[..|before|] == before
      && forall j | |before| <= j < |l| :: l[j] == i + j - |before|
    decreases |tx.outputs| - i
  {
    if i < |tx.outputs| {
      var cache' := cache[tx.hash := Bucket(cache, tx.hash) + [ToUint16(i)]];
      OwnList(cache', tx, i + 1);
      var l, before := Bucket(OwnOutputs(cache, tx, i), tx.hash), Bucket(cache, tx.hash);
      var more := before + [ToUint16(i)];
      assert l[..|more|] == more;
      assert l[..|before|] == more[..|before|] == before;
      assert l[|before|] == more[|before|];
    }
  }

  // What these do to the set of unspent outpoints.

  lemma SlotsAdd(m: IndexLists, u: set<Outpoint>, o: Outpoint)
    requires Holds(m, Slots(u)) && o !in u
    ensures Holds(m[o.txid := Bucket(m, o.txid) + [o.index]], Slots(u + {o}))
  {
    assert (o.txid, o.index) !in Slots(u) by {
      assert forall o' | o' in u :: o' == Outpoint(o'.txid, o'.index);
    }
    HoldsInsert(m, Slots(u), o.txid, o.index);
    assert Slots(u + {o}) == Slots(u) + {(o.txid, o.index)};
  }

  lemma OwnOutputView(store: IndexLists, cache: IndexLists, t: Uint256, i: uint16)
    requires t !in store
    ensures store + cache[t := Bucket(cache, t) + [i]] == (store + cache)[t := Bucket(store + cache, t) + [i]]
  {
  }

  lemma RestoreOneView(store: IndexLists, cache: IndexLists, own: set<Uint256>, o: Outpoint)
    requires o.txid !in own
    ensures
      var view := store - own + cache;
      store - own + RestoreOne(store, cache, o) == view[o.txid := Bucket(view, o.txid) + [o.index]]
  {
  }

  lemma {:induction false} OwnOutputsExact(store: IndexLists, cache: IndexLists, u: set<Outpoint>, tx: Tx, i: nat)
    requires Holds(store + cache, Slots(u))
    requires tx.hash !in store && i <= |tx.outputs| <= 0x1_0000
    requires u !! U.OutpointsFrom(tx, i)
    ensures Holds(store + OwnOutputs(cache, tx, i), Slots(u + U.OutpointsFrom(tx, i)))
    decreases |tx.outputs| - i
  {
    if i == |tx.outputs| {
      assert u + U.OutpointsFrom(tx, i) == u;
    } else {
      var o := Outpoint(tx.hash, i);
      U.OutpointsFromStep(tx, i);
      var cache' := cache[tx.hash := Bucket(cache, tx.hash) + [ToUint16(i)]];
      SlotsAdd(store + cache, u, o);
      OwnOutputView(store, cache, tx.hash, i);
      OwnOutputsExact(store, cache', u + {o}, tx, i + 1);
      assert u + {o} + U.OutpointsFrom(tx, i + 1) == u + U.OutpointsFrom(tx, i);
    }
  }

  lemma SlotsWithout(u: set<Outpoint>, o: Outpoint)
    ensures Slots(u - {o}) == Slots(u) - {(o.txid, o.index)}
  {
    assert forall o' | o' in u :: o' == Outpoint(o'.txid, o'.index);
  }

  lemma SlotsRemove(m: IndexLists, u: set<Outpoint>, o: Outpoint)
    requires Holds(m, Slots(u)) && o in u
    ensures
      var l := Bucket(m, o.txid);
      var p := FindIndex(l, o.index);
      p < |l| && Holds(m[o.txid := SwapRemove(l, p)], Slots(u - {o}))
  {
    var l := Bucket(m, o.txid);
    HoldsMember(m, Slots(u), o.txid, o.index);
    var p := FindIndex(l, o.index);
    SwapRemoveBag(l, p);
    HoldsRemove(m, Slots(u), o.txid, p, SwapRemove(l, p));
    SlotsWithout(u, o);
  }

  lemma SpendOneView(store: IndexLists, cache: IndexLists, o: Outpoint)
    requires o.index in Bucket(store + cache, o.txid)
    ensures SpendOne(store, cache, o).Ok?
    ensures
      var l := Bucket(store + cache, o.txid);
      store + SpendOne(store, cache, o).value == (store + cache)[o.txid := SwapRemove(l, FindIndex(l, o.index))]
  {
  }

  lemma SpendOneExact(store: IndexLists, cache: IndexLists, u: set<Outpoint>, o: Outpoint)
    requires Holds(store + cache, Slots(u)) && o in u
    ensures SpendOne(store, cache, o).Ok?
    ensures Holds(store + SpendOne(store, cache, o).value, Slots(u - {o}))
  {
    SlotsRemove(store + cache, u, o);
    SpendOneView(store, cache, o);
  }

  lemma {:induction false} SpendAllExact(store: IndexLists, cache: IndexLists, u: set<Outpoint>, spends: seq<Outpoint>)
    requires Holds(store + cache, Slots(u)) && Spendable(spends, u)
    ensures SpendAll(store, cache, spends).Ok?
    ensures Holds(store + SpendAll(store, cache, spends).value, Slots(u - AsSet(spends)))
    decreases spends
  {
    if spends == [] {
      assert u - AsSet(spends) == u;
    } else {
      var o := spends[0];
      assert spends == [o] + spends[1..] && o in [o];
      SpendableSplit([o], spends[1..], u);
      SpendOneExact(store, cache, u, o);
      assert u - {o} == u - AsSet([o]);
      SpendAllExact(store, SpendOne(store, cache, o).value, u - {o}, spends[1..]);
      assert u - {o} - AsSet(spends[1..]) == u - AsSet(spends);
    }
  }

  /** The block's transactions are new to the store and to `u`. */
  ghost predicate NewTo(txs: Txs, store: IndexLists, u: set<Outpoint>, s: seq<Tx>) {
    && Fresh(txs, s)
    && (forall i | 0 <= i < |s| :: s[i].hash !in store)
    && (forall i, o | 0 <= i < |s| && o in u :: o.txid != s[i].hash)
  }

  lemma NewToTail(txs: Txs, store: IndexLists, u: set<Outpoint>, s: seq<Tx>)
    requires s != [] && NewTo(txs, store, u, s)
    ensures NewTo(txs, store, u + TxOutpoints(s[0]) - AsSet(s[0].Spends()), s[1..])
  {
    assert forall i | 0 <= i < |s| - 1 :: s[1..][i] == s[i + 1];
  }

  lemma {:induction false} PersistTxsExact(txs: Txs, store: IndexLists, cache: IndexLists, u: set<Outpoint>, s: seq<Tx>)
    requires Holds(store + cache, Slots(u)) && NewTo(txs, store, u, s)
    requires Spendable(BlockSpends(s), U.Available(txs, u))
    ensures PersistTxs(store, cache, s).Ok?
    ensures Holds(store + PersistTxs(store, cache, s).value, Slots(u - AsSet(BlockSpends(s)) + BlockOutpoints(s)))
    decreases s
  {
    if s == [] {
      assert u - AsSet(BlockSpends(s)) + BlockOutpoints(s) == u;
    } else {
      var own, spends := TxOutpoints(s[0]), s[0].Spends();
      assert U.OutpointsFrom(s[0], 0) == own;
      OwnOutputsExact(store, cache, u, s[0], 0);
      SpendableSplit(spends, BlockSpends(s[1..]), U.Available(txs, u));
      SpendAllExact(store, OwnOutputs(cache, s[0], 0), u + own, spends);
      var u' := u + own - AsSet(spends);
      NewToTail(txs, store, u, s);
      assert U.Available(txs, u') == U.Available(txs, u) - AsSet(spends);
      PersistTxsExact(txs, store, PersistTx(store, cache, s[0]).value, u', s[1..]);
      U.UnspentStep(txs, u, s);
    }
  }

  lemma RestoreOneExact(store: IndexLists, cache: IndexLists, own: set<Uint256>, u: set<Outpoint>, o: Outpoint)
    requires Holds(store - own + cache, Slots(u)) && o.txid !in own && o !in u
    ensures Holds(store - own + RestoreOne(store, cache, o), Slots(u + {o}))
  {
    SlotsAdd(store - own + cache, u, o);
    RestoreOneView(store, cache, own, o);
  }

  lemma {:induction false} RestoreAllExact(store: IndexLists, cache: IndexLists, own: set<Uint256>, u: set<Outpoint>, spends: seq<Outpoint>)
    requires Holds(store - own + cache, Slots(u)) && NoDuplicates(spends)
    requires forall o | o in spends :: o.txid !in own && o !in u
    ensures Holds(store - own + RestoreAll(store, cache, spends), Slots(u + AsSet(spends)))
    decreases spends
  {
    if spends == [] {
      assert u + AsSet(spends) == u;
    } else {
      var o, rest := spends[0], spends[1..];
      RestoreOneExact(store, cache, own, u, o);
      NoDuplicatesTail(spends);
      RestoreAllExact(store, RestoreOne(store, cache, o), own, u + {o}, rest);
      assert u + {o} + AsSet(rest) == u + AsSet(spends);
    }
  }

  lemma OwnOutpoints(all: Txs, u: set<Outpoint>, height: uint32, s: seq<Tx>, o: Outpoint)
    requires o in u && IsOutput(all, o)
    requires forall i | 0 <= i < |s| :: s[i].hash in all && all[s[i].hash] == TxEntry(s[i], height)
    ensures o in BlockOutpoints(s) <==> o.txid in Hashes(s)
  {
    BlockOutpointsMembers(s, o);
    if o.txid in Hashes(s) {
      var n :| 0 <= n < |s| && s[n].hash == o.txid;
      assert o in TxOutpoints(s[n]);
    }
  }

  /** Deleting the own lists removes exactly the block's outpoints. */
  lemma DeleteOwnExact(all: Txs, store: IndexLists, u: set<Outpoint>, height: uint32, s: seq<Tx>)
    requires Holds(store, Slots(u))
    requires forall o | o in u :: IsOutput(all, o)
    requires forall i | 0 <= i < |s| :: s[i].hash in all && all[s[i].hash] == TxEntry(s[i], height)
    ensures Holds(store - Hashes(s), Slots(u - BlockOutpoints(s)))
  {
    var own := Hashes(s);
    forall o | o in u ensures o in BlockOutpoints(s) <==> o.txid in own {
      OwnOutpoints(all, u, height, s, o);
    }
    HoldsWithout(store, u, own, BlockOutpoints(s));
  }

  lemma HoldsWithout(store: IndexLists, u: set<Outpoint>, own: set<Uint256>, gone: set<Outpoint>)
    requires Holds(store, Slots(u)) && forall o | o in u :: o in gone <==> o.txid in own
    ensures Holds(store - own, Slots(u - gone))
  {
    forall t, i: uint16
      ensures multiset(Bucket(store - own, t))[i] == if (t, i) in Slots(u - gone) then 1 else 0
    {
      assert multiset(Bucket(store, t))[i] == if (t, i) in Slots(u) then 1 else 0;
      assert (t, i) in Slots(u) <==> Outpoint(t, i) in u;
      assert (t, i) in Slots(u - gone) <==> Outpoint(t, i) in u - gone;
    }
  }
}
