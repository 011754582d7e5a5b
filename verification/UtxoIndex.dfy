/** The index of unspent outputs by program hash, asset and height: what one
    block does to it, applied to the store's lists one operation at a time. */
module UtxoIndex {
  import opened Bytes
  import opened Types
  import opened Buckets
  import opened Ledger

  type UtxoLists = map<BucketKey, seq<Utxo>>

  function UtxoOf(txid: Uint256, index: uint32, out: Output): Utxo {
    Utxo(txid, index, out.assetID, ValueBytes(out))
  }

  function KeyOf(out: Output, height: uint32): BucketKey {
    BucketKey(out.programHash, out.assetID, height)
  }

  /** Position of the first entry for (txid, index), or the length if there is none. */
  function Find(l: seq<Utxo>, txid: Uint256, index: uint32): (p: nat)
    ensures p <= |l|
    ensures p < |l| ==> l[p].txid == txid && l[p].index == index
    ensures forall q | 0 <= q < p :: l[q].txid != txid || l[q].index != index
  {
    if l == [] || (l[0].txid == txid && l[0].index == index) then 0
    else 1 + Find(l[1..], txid, index)
  }

  // Persisting

  function AddOne(m: UtxoLists, tx: Tx, height: uint32, i: nat): UtxoLists
    requires i < |tx.outputs|
  {
    var k := KeyOf(tx.outputs[i], height);
    m[k := Bucket(m, k) + [UtxoOf(tx.hash, ToUint32(i), tx.outputs[i])]]
  }

  function AddOutputs(m: UtxoLists, tx: Tx, height: uint32, i: nat): UtxoLists
    requires i <= |tx.outputs|
    decreases |tx.outputs| - i
  {
    if i == |tx.outputs| then m else AddOutputs(AddOne(m, tx, height, i), tx, height, i + 1)
  }

  function SpendOne(txs: Txs, m: UtxoLists, o: Outpoint): Result<UtxoLists> {
    if o.txid !in txs then Err(TransactionNotFound)
    else if o.index >= |txs[o.txid].tx.outputs| then Err(OutputIndexOutOfRange)
    else
      var refer := txs[o.txid];
      var k := KeyOf(refer.tx.outputs[o.index], refer.height);
      if k !in m then Err(NoUnspentList)
      else
        var p := Find(m[k], refer.tx.hash, o.index);
        if p == |m[k]| then Err(UtxoNotFound) else Ok(m[k := SwapRemove(m[k], p)])
  }

  function SpendAll(txs: Txs, m: UtxoLists, spends: seq<Outpoint>): Result<UtxoLists>
    decreases spends
  {
    if spends == [] then Ok(m)
    else
      var m' :- SpendOne(txs, m, spends[0]);
      SpendAll(txs, m', spends[1..])
  }

  function PersistTx(txs: Txs, m: UtxoLists, height: uint32, tx: Tx): Result<UtxoLists> {
    SpendAll(txs, AddOutputs(m, tx, height, 0), tx.Spends())
  }

  function PersistTxs(txs: Txs, m: UtxoLists, height: uint32, s: seq<Tx>): Result<UtxoLists>
    decreases s
  {
    if s == [] then Ok(m)
    else
      var m' :- PersistTx(txs, m, height, s[0]);
      PersistTxs(txs, m', height, s[1..])
  }

  function PersistUtxos(txs: Txs, m: UtxoLists, b: Block): Result<UtxoLists> {
    var m' :- PersistTxs(txs, m, b.height, b.txs);
    Ok(Normalize(m'))
  }

  // Rolling back

  /** Which transaction hash a rolled back input gives its restored entry: the
      code writes the hash of the spending transaction; `Corrected` is the
      same code with the hash of the referenced one. */
  datatype RestoredHash = AsWritten | Corrected

  function RemoveOne(m: UtxoLists, tx: Tx, height: uint32, i: nat): Result<UtxoLists>
    requires i < |tx.outputs|
  {
    var k := KeyOf(tx.outputs[i], height);
    if k !in m then Err(NoUnspentList)
    else
      var p := Find(m[k], tx.hash, ToUint32(i));
      // The position starts at 0 and keeps that value when nothing is found.
      var position := if p < |m[k]| then p else 0;
      if m[k] == [] then Err(EmptyListPanic) else Ok(m[k := Splice(m[k], position)])
  }

  function RemoveOutputs(m: UtxoLists, tx: Tx, height: uint32, i: nat): Result<UtxoLists>
    requires i <= |tx.outputs|
    decreases |tx.outputs| - i
  {
    if i == |tx.outputs| then Ok(m)
    else
      var m' :- RemoveOne(m, tx, height, i);
      RemoveOutputs(m', tx, height, i + 1)
  }

  function RestoreOne(mode: RestoredHash, txs: Txs, m: UtxoLists, tx: Tx, o: Outpoint): Result<UtxoLists> {
    if o.txid !in txs then Err(TransactionNotFound)
    else if o.index >= |txs[o.txid].tx.outputs| then Err(OutputIndexOutOfRange)
    else
      var refer := txs[o.txid];
      var out := refer.tx.outputs[o.index];
      var k := KeyOf(out, refer.height);
      var hash := if mode.AsWritten? then tx.hash else refer.tx.hash;
      Ok(m[k := Bucket(m, k) + [UtxoOf(hash, o.index, out)]])
  }

  function RestoreAll(mode: RestoredHash, txs: Txs, m: UtxoLists, tx: Tx, spends: seq<Outpoint>): Result<UtxoLists>
    decreases spends
  {
    if spends == [] then Ok(m)
    else
      var m' :- RestoreOne(mode, txs, m, tx, spends[0]);
      RestoreAll(mode, txs, m', tx, spends[1..])
  }

  function RollbackTx(mode: RestoredHash, txs: Txs, m: UtxoLists, height: uint32, tx: Tx): Result<UtxoLists> {
    var removed :- RemoveOutputs(m, tx, height, 0);
    RestoreAll(mode, txs, removed, tx, tx.Spends())
  }

  function RollbackTxs(mode: RestoredHash, txs: Txs, m: UtxoLists, height: uint32, s: seq<Tx>): Result<UtxoLists>
    decreases s
  {
    if s == [] then Ok(m)
    else
      var m' :- RollbackTx(mode, txs, m, height, s[0]);
      RollbackTxs(mode, txs, m', height, s[1..])
  }

  function RollbackUtxos(mode: RestoredHash, txs: Txs, m: UtxoLists, b: Block): Result<UtxoLists> {
    var m' :- RollbackTxs(mode, txs, m, b.height, b.txs);
    Ok(Normalize(m'))
  }

  /** A search that stops at the first match finds what Find finds. */
  lemma {:induction false} FindIs(l: seq<Utxo>, txid: Uint256, index: uint32, p: nat)
    requires p <= |l|
    requires forall q | 0 <= q < p :: l[q].txid != txid || l[q].index != index
    requires p < |l| ==> l[p].txid == txid && l[p].index == index
    ensures Find(l, txid, index) == p
  {
    if p > 0 {
      assert forall q | 0 <= q < p - 1 :: l[1..][q] == l[q + 1];
      FindIs(l[1..], txid, index, p - 1);
    }
  }

  /** Where entries go: a new one to the end of its list; */
  lemma AddPlace(m: UtxoLists, tx: Tx, height: uint32, i: uint16)
    requires i < |tx.outputs|
    ensures
      var out := tx.outputs[i];
      var k := BucketKey(out.programHash, out.assetID, height);
      AddOne(m, tx, height, i) == m[k := Bucket(m, k) + [Utxo(tx.hash, i, out.assetID, ValueBytes(out))]]
  {
  }

  /** a restored one to the end of its list, whole but for the hash; */
  lemma RestorePlace(mode: RestoredHash, txs: Txs, m: UtxoLists, tx: Tx, o: Outpoint)
    requires IsOutput(txs, o)
    ensures
      var (k, e) := EntryOf(txs, o);
      RestoreOne(mode, txs, m, tx, o) == Ok(m[k := Bucket(m, k) + [if mode.AsWritten? then e.(txid := tx.hash) else e]])
  {
  }

  /** The first entry of a list for (txid, index) is at p. */
  ghost predicate FirstAt(l: seq<Utxo>, txid: Uint256, index: uint32, p: nat) {
    && p < |l| && l[p].txid == txid && l[p].index == index
    && forall q | 0 <= q < p :: l[q].txid != txid || l[q].index != index
  }

  ghost predicate NoneFor(l: seq<Utxo>, txid: Uint256, index: uint32) {
    forall q | 0 <= q < |l| :: l[q].txid != txid || l[q].index != index
  }

  lemma SpendSwaps(txs: Txs, m: UtxoLists, o: Outpoint, p: nat)
    requires IsOutput(txs, o) && EntryOf(txs, o).0 in m
    requires FirstAt(m[EntryOf(txs, o).0], txs[o.txid].tx.hash, o.index, p)
    ensures
      var k := EntryOf(txs, o).0;
      SpendOne(txs, m, o) == Ok(m[k := SwapRemove(m[k], p)])
  {
    FindIs(m[EntryOf(txs, o).0], txs[o.txid].tx.hash, o.index, p);
  }

  /** and a spent one gives its place to the last of the list. */
  lemma SpendPlace(txs: Txs, m: UtxoLists, o: Outpoint, p: nat, l: seq<Utxo>)
    requires IsOutput(txs, o) && EntryOf(txs, o).0 in m && l == m[EntryOf(txs, o).0]
    requires FirstAt(l, txs[o.txid].tx.hash, o.index, p)
    ensures
      var n := |l| - 1;
      SpendOne(txs, m, o) == Ok(m[EntryOf(txs, o).0 := if p == n then l[..n] else l[..p] + [l[n]] + l[p + 1..n]])
  {
    SpendSwaps(txs, m, o, p);
    SwapRemoveIs(l, p);
  }

  /** Why a spend fails: an unknown transaction, an index it does not have, no list
      where the output should be, or a list without an entry for it. */
  lemma SpendFailures(txs: Txs, m: UtxoLists, o: Outpoint)
    ensures
      var r := SpendOne(txs, m, o);
      && (r == Err(TransactionNotFound) <==> o.txid !in txs)
      && (r == Err(OutputIndexOutOfRange) <==> o.txid in txs && o.index >= |txs[o.txid].tx.outputs|)
      && (r == Err(NoUnspentList) <==> IsOutput(txs, o) && EntryOf(txs, o).0 !in m)
      && (r == Err(UtxoNotFound) <==>
            IsOutput(txs, o) && EntryOf(txs, o).0 in m && NoneFor(m[EntryOf(txs, o).0], txs[o.txid].tx.hash, o.index))
  {
    if IsOutput(txs, o) && EntryOf(txs, o).0 in m {
      NoneIsNotFound(m[EntryOf(txs, o).0], txs[o.txid].tx.hash, o.index);
    }
  }

  lemma NoneIsNotFound(l: seq<Utxo>, txid: Uint256, index: uint32)
    ensures Find(l, txid, index) == |l| <==> NoneFor(l, txid, index)
  {
  }

  /** Restoring fails only for what is not stored; it needs no list to be there. */
  lemma RestoreFailures(mode: RestoredHash, txs: Txs, m: UtxoLists, tx: Tx, o: Outpoint)
    ensures
      var r := RestoreOne(mode, txs, m, tx, o);
      && (r == Err(TransactionNotFound) <==> o.txid !in txs)
      && (r == Err(OutputIndexOutOfRange) <==> o.txid in txs && o.index >= |txs[o.txid].tx.outputs|)
      && (r.Ok? <==> IsOutput(txs, o))
  {
  }

  /** Removing an output fails on a missing or an empty list. */
  lemma RemovalFailures(m: UtxoLists, tx: Tx, height: uint32, i: nat)
    requires i < |tx.outputs|
    ensures
      var k, r := BucketKey(tx.outputs[i].programHash, tx.outputs[i].assetID, height), RemoveOne(m, tx, height, i);
      && (r == Err(NoUnspentList) <==> k !in m)
      && (r == Err(EmptyListPanic) <==> k in m && m[k] == [])
  {
  }

  /** Otherwise the first entry for the output goes, */
  lemma RemovalFirst(m: UtxoLists, tx: Tx, height: uint32, i: nat, p: nat)
    requires i < |tx.outputs| <= 0x1_0000
    requires
      var k := BucketKey(tx.outputs[i].programHash, tx.outputs[i].assetID, height);
      k in m && FirstAt(m[k], tx.hash, i, p)
    ensures
      var k := BucketKey(tx.outputs[i].programHash, tx.outputs[i].assetID, height);
      RemoveOne(m, tx, height, i) == Ok(m[k := m[k][..p] + m[k][p + 1..]])
  {
    FindIs(m[KeyOf(tx.outputs[i], height)], tx.hash, i, p);
  }

  /** or the first entry of all if there is none for it. */
  lemma RemovalOther(m: UtxoLists, tx: Tx, height: uint32, i: nat)
    requires i < |tx.outputs| <= 0x1_0000
    requires
      var k := BucketKey(tx.outputs[i].programHash, tx.outputs[i].assetID, height);
      k in m && m[k] != [] && NoneFor(m[k], tx.hash, i)
    ensures
      var k := BucketKey(tx.outputs[i].programHash, tx.outputs[i].assetID, height);
      RemoveOne(m, tx, height, i) == Ok(m[k := m[k][1..]])
  {
    var l := m[KeyOf(tx.outputs[i], height)];
    NoneIsNotFound(l, tx.hash, i);
    assert l[..0] + l[1..] == l[1..];
  }

  // One operation against the set of unspent outpoints. `all` is the
  // transaction map that gives outpoints their entries.

  /** `m` lists exactly the entries of the outpoints `u`. */
  ghost predicate Lists(all: Txs, m: UtxoLists, u: set<Outpoint>) {
    && Keyed(all)
    && (forall o | o in u :: IsOutput(all, o))
    && Holds(m, Entries(all, u))
  }

  lemma ListsAdd(all: Txs, m: UtxoLists, u: set<Outpoint>, o: Outpoint)
    requires Lists(all, m, u) && IsOutput(all, o) && o !in u
    ensures var (k, e) := EntryOf(all, o); Lists(all, m[k := Bucket(m, k) + [e]], u + {o})
  {
    var (k, e) := EntryOf(all, o);
    assert (k, e) !in Entries(all, u) by {
      forall o' | o' in u && EntryOf(all, o') == (k, e) ensures false {
        EntryInjective(all, o, o');
      }
    }
    HoldsInsert(m, Entries(all, u), k, e);
    assert Entries(all, u + {o}) == Entries(all, u) + {(k, e)};
  }

  /** The entry found for an outpoint is that outpoint's own. */
  lemma ListsFind(all: Txs, m: UtxoLists, u: set<Outpoint>, o: Outpoint)
    requires Lists(all, m, u) && IsOutput(all, o)
    ensures
      var (k, e) := EntryOf(all, o);
      var p := Find(Bucket(m, k), o.txid, o.index);
      (o in u <==> p < |Bucket(m, k)|) && (o in u ==> Bucket(m, k)[p] == e)
  {
    var (k, e) := EntryOf(all, o);
    var p := Find(Bucket(m, k), o.txid, o.index);
    if o in u {
      assert (k, e) in Entries(all, u);
      HoldsMember(m, Entries(all, u), k, e);
    }
    if p < |Bucket(m, k)| {
      var found := Bucket(m, k)[p];
      HoldsMember(m, Entries(all, u), k, found);
      var o' :| o' in u && EntryOf(all, o') == (k, found);
      EntryInjective(all, o, o');
    }
  }

  lemma EntriesRemove(all: Txs, u: set<Outpoint>, o: Outpoint)
    requires Keyed(all) && o in u && IsOutput(all, o)
    ensures Entries(all, u - {o}) == Entries(all, u) - {EntryOf(all, o)}
  {
    forall o' | o' in u - {o} && IsOutput(all, o') ensures EntryOf(all, o') != EntryOf(all, o) {
      if EntryOf(all, o') == EntryOf(all, o) {
        EntryInjective(all, o, o');
      }
    }
  }

  lemma ListsRemove(all: Txs, m: UtxoLists, u: set<Outpoint>, o: Outpoint, l: seq<Utxo>)
    requires Lists(all, m, u) && o in u
    requires
      var (k, e) := EntryOf(all, o);
      e in Bucket(m, k) && multiset(l) == multiset(Bucket(m, k)) - multiset{e}
    ensures Lists(all, m[EntryOf(all, o).0 := l], u - {o})
  {
    var (k, e) := EntryOf(all, o);
    var p :| 0 <= p < |Bucket(m, k)| && Bucket(m, k)[p] == e;
    HoldsRemove(m, Entries(all, u), k, p, l);
    EntriesRemove(all, u, o);
  }

  /** `txs` is the committed part of `all`. */
  ghost predicate Within(txs: Txs, all: Txs) {
    forall t | t in txs :: t in all && all[t] == txs[t]
  }

  lemma SpendOneExact(txs: Txs, all: Txs, m: UtxoLists, u: set<Outpoint>, o: Outpoint)
    requires Lists(all, m, u) && Within(txs, all)
    ensures SpendOne(txs, m, o).Ok? <==> o in u && o.txid in txs
    ensures SpendOne(txs, m, o).Ok? ==> Lists(all, SpendOne(txs, m, o).value, u - {o})
  {
    if IsOutput(txs, o) {
      ListsFind(all, m, u, o);
      var (k, e) := EntryOf(all, o);
      if o in u {
        var p := Find(m[k], o.txid, o.index);
        SwapRemoveBag(m[k], p);
        ListsRemove(all, m, u, o, SwapRemove(m[k], p));
      }
    }
  }

  ghost function Available(txs: Txs, u: set<Outpoint>): set<Outpoint> {
    set o | o in u && o.txid in txs
  }

  lemma SpendSplit(txs: Txs, u: set<Outpoint>, spends: seq<Outpoint>)
    requires spends != []
    ensures
      var o, rest := spends[0], spends[1..];
      && (Spendable(spends, Available(txs, u)) <==> o in u && o.txid in txs && Spendable(rest, Available(txs, u - {o})))
      && u - {o} - AsSet(rest) == u - AsSet(spends)
  {
    var o, rest := spends[0], spends[1..];
    assert spends == [o] + rest && o in [o];
    SpendableSplit([o], rest, Available(txs, u));
    assert Available(txs, u - {o}) == Available(txs, u) - AsSet([o]);
  }

  lemma {:induction false} SpendAllExact(txs: Txs, all: Txs, m: UtxoLists, u: set<Outpoint>, spends: seq<Outpoint>)
    requires Lists(all, m, u) && Within(txs, all)
    ensures SpendAll(txs, m, spends).Ok? <==> Spendable(spends, Available(txs, u))
    ensures SpendAll(txs, m, spends).Ok? ==> Lists(all, SpendAll(txs, m, spends).value, u - AsSet(spends))
    decreases spends
  {
    if spends == [] {
      assert u - AsSet(spends) == u;
    } else {
      var o := spends[0];
      SpendSplit(txs, u, spends);
      SpendOneExact(txs, all, m, u, o);
      if o in u && o.txid in txs {
        SpendAllExact(txs, all, SpendOne(txs, m, o).value, u - {o}, spends[1..]);
      }
    }
  }

  /** The outpoints of `tx` from output `i` on. */
  ghost function OutpointsFrom(tx: Tx, i: nat): set<Outpoint> {
    set o | o in TxOutpoints(tx) && i <= o.index
  }

  lemma OutpointsFromStep(tx: Tx, i: nat)
    requires i < |tx.outputs| <= 0x1_0000
    ensures OutpointsFrom(tx, i) == {Outpoint(tx.hash, i)} + OutpointsFrom(tx, i + 1)
    ensures Outpoint(tx.hash, i) !in OutpointsFrom(tx, i + 1)
  {
  }

  lemma OutpointsLeft(u: set<Outpoint>, tx: Tx, i: nat)
    requires i < |tx.outputs| <= 0x1_0000 && u !! OutpointsFrom(tx, i)
    ensures
      var o := Outpoint(tx.hash, i);
      && o !in u && u + {o} !! OutpointsFrom(tx, i + 1)
      && u + {o} + OutpointsFrom(tx, i + 1) == u + OutpointsFrom(tx, i)
  {
    OutpointsFromStep(tx, i);
  }

  lemma AddOneExact(all: Txs, m: UtxoLists, u: set<Outpoint>, tx: Tx, height: uint32, i: uint16)
    requires Lists(all, m, u) && i < |tx.outputs|
    requires tx.hash in all && all[tx.hash] == TxEntry(tx, height)
    requires Outpoint(tx.hash, i) !in u
    ensures Lists(all, AddOne(m, tx, height, i), u + {Outpoint(tx.hash, i)})
  {
    ListsAdd(all, m, u, Outpoint(tx.hash, i));
  }

  lemma {:induction false} AddOutputsExact(all: Txs, m: UtxoLists, u: set<Outpoint>, tx: Tx, height: uint32, i: nat)
    requires Lists(all, m, u) && i <= |tx.outputs|
    requires tx.hash in all && all[tx.hash] == TxEntry(tx, height)
    requires u !! OutpointsFrom(tx, i)
    ensures Lists(all, AddOutputs(m, tx, height, i), u + OutpointsFrom(tx, i))
    decreases |tx.outputs| - i
  {
    if i == |tx.outputs| {
      assert u + OutpointsFrom(tx, i) == u;
    } else {
      var o := Outpoint(tx.hash, i);
      OutpointsLeft(u, tx, i);
      AddOneExact(all, m, u, tx, height, i);
      AddOutputsExact(all, AddOne(m, tx, height, i), u + {o}, tx, height, i + 1);
    }
  }

  /** The block's transactions are in `all`, none of their outpoints in `u`. */
  ghost predicate Incoming(txs: Txs, all: Txs, u: set<Outpoint>, height: uint32, s: seq<Tx>) {
    && Fresh(txs, s)
    && (forall i | 0 <= i < |s| :: s[i].hash in all && all[s[i].hash] == TxEntry(s[i], height))
    && (forall i, o | 0 <= i < |s| && o in u :: o.txid != s[i].hash)
  }

  lemma PersistTxExact(txs: Txs, all: Txs, m: UtxoLists, u: set<Outpoint>, height: uint32, tx: Tx)
    requires Lists(all, m, u) && Within(txs, all) && Incoming(txs, all, u, height, [tx])
    ensures PersistTx(txs, m, height, tx).Ok? <==> Spendable(tx.Spends(), Available(txs, u))
    ensures PersistTx(txs, m, height, tx).Ok? ==>
              Lists(all, PersistTx(txs, m, height, tx).value, u + TxOutpoints(tx) - AsSet(tx.Spends()))
  {
    assert [tx][0] == tx;
    assert OutpointsFrom(tx, 0) == TxOutpoints(tx);
    AddOutputsExact(all, m, u, tx, height, 0);
    SpendAllExact(txs, all, AddOutputs(m, tx, height, 0), u + TxOutpoints(tx), tx.Spends());
    assert Available(txs, u + TxOutpoints(tx)) == Available(txs, u);
  }

  lemma IncomingTail(txs: Txs, all: Txs, u: set<Outpoint>, height: uint32, s: seq<Tx>)
    requires s != [] && Incoming(txs, all, u, height, s)
    ensures Incoming(txs, all, u, height, [s[0]])
    ensures Incoming(txs, all, u + TxOutpoints(s[0]) - AsSet(s[0].Spends()), height, s[1..])
  {
    assert forall i | 0 <= i < |s| - 1 :: s[1..][i] == s[i + 1];
  }

  lemma UnspentStep(txs: Txs, u: set<Outpoint>, s: seq<Tx>)
    requires s != [] && Fresh(txs, s)
    requires Spendable(BlockSpends(s), Available(txs, u))
    ensures
      u + TxOutpoints(s[0]) - AsSet(s[0].Spends()) - AsSet(BlockSpends(s[1..])) + BlockOutpoints(s[1..])
      == u - AsSet(BlockSpends(s)) + BlockOutpoints(s)
  {
    assert AsSet(BlockSpends(s)) == AsSet(s[0].Spends()) + AsSet(BlockSpends(s[1..]));
    assert TxOutpoints(s[0]) !! AsSet(BlockSpends(s));
  }

  /** A whole block succeeds exactly when its spends are distinct and available
      before the block, and then leaves exactly the expected entries. */
  lemma {:induction false} PersistTxsExact(txs: Txs, all: Txs, m: UtxoLists, u: set<Outpoint>, height: uint32, s: seq<Tx>)
    requires Lists(all, m, u) && Within(txs, all) && Incoming(txs, all, u, height, s)
    ensures PersistTxs(txs, m, height, s).Ok? <==> Spendable(BlockSpends(s), Available(txs, u))
    ensures PersistTxs(txs, m, height, s).Ok? ==>
              Lists(all, PersistTxs(txs, m, height, s).value, u - AsSet(BlockSpends(s)) + BlockOutpoints(s))
    decreases s
  {
    if s == [] {
      assert u - AsSet(BlockSpends(s)) + BlockOutpoints(s) == u;
    } else {
      var spends := s[0].Spends();
      IncomingTail(txs, all, u, height, s);
      PersistTxExact(txs, all, m, u, height, s[0]);
      SpendableSplit(spends, BlockSpends(s[1..]), Available(txs, u));
      if Spendable(spends, Available(txs, u)) {
        var u' := u + TxOutpoints(s[0]) - AsSet(spends);
        PersistTxsExact(txs, all, PersistTx(txs, m, height, s[0]).value, u', height, s[1..]);
        assert Available(txs, u') == Available(txs, u) - AsSet(spends);
        if Spendable(BlockSpends(s), Available(txs, u)) {
          UnspentStep(txs, u, s);
        }
      }
    }
  }
}
