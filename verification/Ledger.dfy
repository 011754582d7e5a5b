/** The ledger that both indexes stand for: every output of a stored
    transaction, minus every outpoint spent by a stored non-coinbase input. */
module Ledger {
  import opened Bytes
  import opened Types

  type Txs = map<Uint256, TxEntry>

  predicate IsOutput(txs: Txs, o: Outpoint) {
    o.txid in txs && o.index < |txs[o.txid].tx.outputs|
  }

  ghost predicate IsSpent(txs: Txs, o: Outpoint) {
    exists t | t in txs :: o in txs[t].tx.Spends()
  }

  ghost function AllOutputs(txs: Txs): (s: set<Outpoint>)
    ensures forall o :: o in s <==> IsOutput(txs, o)
  {
    var s := set t, i: uint16 | t in txs && 0 <= i < |txs[t].tx.outputs| :: Outpoint(t, i);
    assert forall o :: IsOutput(txs, o) ==> o == Outpoint(o.txid, o.index) && o in s;
    s
  }

  ghost function Unspent(txs: Txs): (s: set<Outpoint>)
    ensures forall o :: o in s <==> IsOutput(txs, o) && !IsSpent(txs, o)
  {
    set o | o in AllOutputs(txs) && !IsSpent(txs, o)
  }

  /** Transactions are stored under their own hash. */
  ghost predicate Keyed(txs: Txs) {
    forall t | t in txs :: txs[t].tx.hash == t && |txs[t].tx.outputs| <= 0x1_0000
  }

  /** What the stored transactions of every reachable state satisfy. */
  ghost predicate Sound(txs: Txs) {
    && Keyed(txs)
    && (forall t, o | t in txs && o in txs[t].tx.Spends() :: IsOutput(txs, o))
    && SpentOnce(txs)
  }

  /** No outpoint is spent by two inputs. */
  ghost predicate SpentOnce(txs: Txs) {
    && (forall t | t in txs :: NoDuplicates(txs[t].tx.Spends()))
    && (forall t, t', o | t in txs && t' in txs && o in txs[t].tx.Spends() && o in txs[t'].tx.Spends() :: t == t')
  }

  ghost predicate NoDuplicates<T>(s: seq<T>) {
    forall i, j | 0 <= i < j < |s| :: s[i] != s[j]
  }

  function OutputOf(txs: Txs, o: Outpoint): Output
    requires IsOutput(txs, o)
  {
    txs[o.txid].tx.outputs[o.index]
  }

  /** Where an output is listed: under its own program hash, asset and creation
      height, with its own transaction hash, index and value bytes. */
  function EntryOf(txs: Txs, o: Outpoint): (BucketKey, Utxo)
    requires IsOutput(txs, o)
  {
    var out := OutputOf(txs, o);
    (BucketKey(out.programHash, out.assetID, txs[o.txid].height),
     Utxo(txs[o.txid].tx.hash, o.index, out.assetID, ValueBytes(out)))
  }

  ghost function Entries(txs: Txs, u: set<Outpoint>): set<(BucketKey, Utxo)> {
    set o | o in u && IsOutput(txs, o) :: EntryOf(txs, o)
  }

  ghost function Slots(u: set<Outpoint>): set<(Uint256, uint16)> {
    set o | o in u :: (o.txid, o.index)
  }

  /** In these terms, an entry belongs to exactly one outpoint. */
  lemma EntryInjective(txs: Txs, o: Outpoint, o': Outpoint)
    requires Keyed(txs) && IsOutput(txs, o) && IsOutput(txs, o')
    requires EntryOf(txs, o).1.txid == EntryOf(txs, o').1.txid
    requires EntryOf(txs, o).1.index == EntryOf(txs, o').1.index
    ensures o == o'
  {
  }

  /** Spending: distinct outpoints, each of them available. */
  ghost predicate Spendable(spends: seq<Outpoint>, available: set<Outpoint>) {
    NoDuplicates(spends) && forall o | o in spends :: o in available
  }

  ghost function AsSet<T>(s: seq<T>): set<T> {
    set x | x in s
  }

  lemma NoDuplicatesTail<T>(s: seq<T>)
    requires s != [] && NoDuplicates(s)
    ensures NoDuplicates(s[1..]) && s[0] !in s[1..]
    ensures AsSet(s) == {s[0]} + AsSet(s[1..])
  {
    assert forall j | 0 <= j < |s| - 1 :: s[1..][j] == s[j + 1];
  }

  lemma SpendableSplit(a: seq<Outpoint>, b: seq<Outpoint>, available: set<Outpoint>)
    ensures Spendable(a + b, available) <==> Spendable(a, available) && Spendable(b, available - AsSet(a))
  {
    var ab := a + b;
    if Spendable(ab, available) {
      assert forall i | 0 <= i < |a| :: a[i] == ab[i];
      assert forall i | 0 <= i < |b| :: b[i] == ab[|a| + i];
      forall o | o in b ensures o in available - AsSet(a) {
        var j :| 0 <= j < |b| && b[j] == o;
        assert ab[|a| + j] in available;
        assert forall i | 0 <= i < |a| :: ab[i] != ab[|a| + j];
      }
    }
    if Spendable(a, available) && Spendable(b, available - AsSet(a)) {
      forall i, j | 0 <= i < j < |ab| ensures ab[i] != ab[j] {
        if i < |a| <= j {
          assert ab[j] == b[j - |a|] && ab[j] in b && ab[i] in a;
        }
      }
    }
  }

  function BlockSpends(s: seq<Tx>): seq<Outpoint> {
    if s == [] then [] else s[0].Spends() + BlockSpends(s[1..])
  }

  /** The hashes of a block's own transactions. */
  function Hashes(s: seq<Tx>): set<Uint256> {
    set n | 0 <= n < |s| :: s[n].hash
  }

  ghost function TxOutpoints(tx: Tx): (r: set<Outpoint>)
    ensures forall o :: o in r <==> o.txid == tx.hash && o.index < |tx.outputs|
  {
    var r := set i: uint16 | 0 <= i < |tx.outputs| :: Outpoint(tx.hash, i);
    assert forall o: Outpoint :: o.txid == tx.hash && o.index < |tx.outputs| ==> o == Outpoint(tx.hash, o.index) && o in r;
    r
  }

  ghost function BlockOutpoints(s: seq<Tx>): set<Outpoint> {
    if s == [] then {} else TxOutpoints(s[0]) + BlockOutpoints(s[1..])
  }

  function Store(txs: Txs, height: uint32, s: seq<Tx>): Txs
    decreases s
  {
    if s == [] then txs else Store(txs[s[0].hash := TxEntry(s[0], height)], height, s[1..])
  }

  function Unstore(txs: Txs, s: seq<Tx>): Txs
    decreases s
  {
    if s == [] then txs else Unstore(txs - {s[0].hash}, s[1..])
  }

  /** A block's transactions are new: hashes distinct and not stored yet. */
  ghost predicate Fresh(txs: Txs, s: seq<Tx>) {
    && (forall i | 0 <= i < |s| :: s[i].hash !in txs && |s[i].outputs| <= 0x1_0000)
    && (forall i, j | 0 <= i < j < |s| :: s[i].hash != s[j].hash)
  }

  lemma {:induction false} BlockSpendsMembers(s: seq<Tx>, o: Outpoint)
    ensures o in BlockSpends(s) <==> exists i | 0 <= i < |s| :: o in s[i].Spends()
  {
    if s != [] {
      BlockSpendsMembers(s[1..], o);
      assert forall i | 1 <= i < |s| :: s[i] == s[1..][i - 1];
      assert forall i | 0 <= i < |s| - 1 :: s[1..][i] == s[i + 1];
    }
  }

  lemma {:induction false} BlockOutpointsMembers(s: seq<Tx>, o: Outpoint)
    ensures o in BlockOutpoints(s) <==> exists i | 0 <= i < |s| :: o in TxOutpoints(s[i])
  {
    if s != [] {
      BlockOutpointsMembers(s[1..], o);
      assert forall i | 1 <= i < |s| :: s[i] == s[1..][i - 1];
      assert forall i | 0 <= i < |s| - 1 :: s[1..][i] == s[i + 1];
    }
  }

  lemma FreshTail(txs: Txs, height: uint32, s: seq<Tx>)
    requires s != [] && Fresh(txs, s)
    ensures Fresh(txs[s[0].hash := TxEntry(s[0], height)], s[1..])
    ensures Fresh(txs, s[1..])
  {
    assert forall i | 0 <= i < |s| - 1 :: s[1..][i] == s[i + 1];
  }

  lemma {:induction false} StoreContents(txs: Txs, height: uint32, s: seq<Tx>)
    requires Fresh(txs, s)
    ensures forall t | t in txs :: t in Store(txs, height, s) && Store(txs, height, s)[t] == txs[t]
    ensures forall i | 0 <= i < |s| :: s[i].hash in Store(txs, height, s) && Store(txs, height, s)[s[i].hash] == TxEntry(s[i], height)
    ensures forall t | t in Store(txs, height, s) :: t in txs || exists i :: 0 <= i < |s| && s[i].hash == t
    decreases s
  {
    if s != [] {
      var first := txs[s[0].hash := TxEntry(s[0], height)];
      FreshTail(txs, height, s);
      StoreContents(first, height, s[1..]);
      assert forall i | 1 <= i < |s| :: s[i] == s[1..][i - 1];
    }
  }

  /** Deleting a new block's transactions undoes storing them. */
  lemma {:induction false} UnstoreUndoesStore(txs: Txs, height: uint32, s: seq<Tx>)
    requires Fresh(txs, s)
    ensures Unstore(Store(txs, height, s), s) == txs
    decreases s
  {
    if s != [] {
      FreshTail(txs, height, s);
      var first := txs[s[0].hash := TxEntry(s[0], height)];
      UnstoreUndoesStore(first, height, s[1..]);
      UnstoreSkips(Store(first, height, s[1..]), s[1..], s[0].hash);
      assert first - {s[0].hash} == txs;
    }
  }

  lemma {:induction false} UnstoreSkips(txs: Txs, s: seq<Tx>, t: Uint256)
    ensures Unstore(txs - {t}, s) == Unstore(txs, s) - {t}
    decreases s
  {
    if s != [] {
      assert txs - {t} - {s[0].hash} == txs - {s[0].hash} - {t};
      UnstoreSkips(txs - {s[0].hash}, s[1..], t);
    }
  }

  /** Storing a block whose inputs are spendable moves the unspent set as expected. */
  lemma UnspentAfterStore(txs: Txs, height: uint32, s: seq<Tx>)
    requires Sound(txs) && Fresh(txs, s) && Spendable(BlockSpends(s), Unspent(txs))
    ensures Unspent(Store(txs, height, s)) == Unspent(txs) - AsSet(BlockSpends(s)) + BlockOutpoints(s)
  {
    var all := Store(txs, height, s);
    StoreContents(txs, height, s);
    forall o
      ensures o in Unspent(all) <==> o in Unspent(txs) - AsSet(BlockSpends(s)) + BlockOutpoints(s)
    {
      BlockSpendsMembers(s, o);
      BlockOutpointsMembers(s, o);
      SpentAfterStore(txs, height, s, o);
      assert IsOutput(all, o) <==> IsOutput(txs, o) || o in BlockOutpoints(s);
      if o in BlockOutpoints(s) {
        assert o !in BlockSpends(s);
        assert !IsSpent(txs, o);
      }
    }
  }

  lemma SpentAfterStore(txs: Txs, height: uint32, s: seq<Tx>, o: Outpoint)
    requires Fresh(txs, s)
    ensures IsSpent(Store(txs, height, s), o) <==> IsSpent(txs, o) || o in BlockSpends(s)
  {
    var all := Store(txs, height, s);
    StoreContents(txs, height, s);
    BlockSpendsMembers(s, o);
    if IsSpent(txs, o) {
      var t :| t in txs && o in txs[t].tx.Spends();
      assert o in all[t].tx.Spends();
    }
    if o in BlockSpends(s) {
      var i :| 0 <= i < |s| && o in s[i].Spends();
      assert o in all[s[i].hash].tx.Spends();
    }
  }

  lemma SoundAfterStore(txs: Txs, height: uint32, s: seq<Tx>)
    requires Sound(txs) && Fresh(txs, s) && Spendable(BlockSpends(s), Unspent(txs))
    ensures Sound(Store(txs, height, s))
  {
    var all := Store(txs, height, s);
    StoreContents(txs, height, s);
    BlockSpendsDistinct(s);
    forall t, o | t in all && o in all[t].tx.Spends()
      ensures IsOutput(all, o)
    {
      BlockSpendsMembers(s, o);
      assert t in txs || o in BlockSpends(s);
      assert IsOutput(txs, o);
    }
    forall t, t', o | t in all && t' in all && o in all[t].tx.Spends() && o in all[t'].tx.Spends()
      ensures t == t'
    {
      BlockSpendsMembers(s, o);
      assert t in txs && t' !in txs ==> IsSpent(txs, o);
      assert t' in txs && t !in txs ==> IsSpent(txs, o);
    }
  }

  lemma {:induction false} BlockSpendsDistinct(s: seq<Tx>)
    requires NoDuplicates(BlockSpends(s))
    ensures forall i | 0 <= i < |s| :: NoDuplicates(s[i].Spends())
    ensures forall i, j, o | 0 <= i < |s| && 0 <= j < |s| && o in s[i].Spends() && o in s[j].Spends() :: i == j
  {
    if s != [] {
      var head, tail := s[0].Spends(), BlockSpends(s[1..]);
      SpendableSplit(head, tail, AsSet(BlockSpends(s)));
      BlockSpendsDistinct(s[1..]);
      assert forall i | 1 <= i < |s| :: s[i] == s[1..][i - 1];
      forall o | o in head ensures o !in tail {
      }
      forall o, i | 1 <= i < |s| && o in s[i].Spends() ensures o in tail {
        BlockSpendsMembers(s[1..], o);
        assert o in s[1..][i - 1].Spends();
      }
    }
  }
}
