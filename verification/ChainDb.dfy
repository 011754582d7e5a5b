/** The committed state of the store, and what persisting a block and rolling it
    back do to all of it. Reads see committed state only, so every part of one
    block's batch is computed from the same state. */
module ChainDb {
  import opened Types
  import opened Buckets
  import opened Ledger
  import opened UtxoIndex
  import opened UtxoRollback
  import I = UnspentIndex
  import opened R = Registry

  datatype Db = Db(utxos: UtxoLists, unspent: I.IndexLists, reg: Registry)

  function Persist(db: Db, b: Block): Result<Db> {
    var utxos :- PersistUtxos(db.reg.txs, db.utxos, b);
    var reg :- PersistTransactions(db.reg, b.height, b.txs);
    var unspent :- I.PersistUnspent(db.unspent, b.txs);
    Ok(Db(utxos, unspent, reg))
  }

  function Rollback(mode: RestoredHash, db: Db, b: Block): Result<Db> {
    var utxos :- RollbackUtxos(mode, db.reg.txs, db.utxos, b);
    var reg :- RollbackTransactions(db.reg, b.txs);
    Ok(Db(utxos, I.RollbackUnspent(db.unspent, b.txs), reg))
  }

  /** The genesis transaction registers the system asset and moves nothing. */
  predicate IsGenesis(tx: Tx) {
    tx.hash == ELA_ASSET_ID && tx.txType.RegisterAsset? && tx.inputs == [] && tx.outputs == []
  }

  function InitDb(genesis: Tx): Db
    requires IsGenesis(genesis)
  {
    Db(map[], map[],
       Registry(map[genesis.hash := TxEntry(genesis, 0)], map[genesis.hash := AssetInfo(genesis.txType.asset, 0)], {}))
  }

  /** Both indexes hold exactly the unspent outpoints of the stored transactions,
      each once and in its own place, and no key has an empty list. */
  ghost predicate Valid(db: Db) {
    && Sound(db.reg.txs) && ELA_ASSET_ID in db.reg.txs
    && Holds(db.utxos, Entries(db.reg.txs, Unspent(db.reg.txs))) && NoEmptyList(db.utxos)
    && Holds(db.unspent, Slots(Unspent(db.reg.txs))) && NoEmptyList(db.unspent)
  }

  /** Equal up to the order of each list. */
  ghost predicate SameDb(db: Db, db': Db) {
    SameBags(db.utxos, db'.utxos) && SameBags(db.unspent, db'.unspent) && db.reg == db'.reg
  }

  lemma InitValid(genesis: Tx)
    requires IsGenesis(genesis)
    ensures Valid(InitDb(genesis))
  {
    assert Unspent(InitDb(genesis).reg.txs) == {};
  }

  /** No double spend: distinct non-coinbase inputs, each unspent before the block. */
  ghost predicate Acceptable(db: Db, b: Block) {
    && Spendable(BlockSpends(b.txs), Unspent(db.reg.txs))
    && forall n | 0 <= n < |b.txs| :: Recordable(b.txs[n])
  }

  lemma UnspentKeysStored(db: Db, t: Uint256)
    requires Valid(db) && t in db.unspent
    ensures t in db.reg.txs
  {
    HoldsMember(db.unspent, Slots(Unspent(db.reg.txs)), t, db.unspent[t][0]);
  }

  lemma EntriesStored(db: Db, k: BucketKey, e: Utxo)
    requires Valid(db) && e in Bucket(db.utxos, k)
    ensures e.txid in db.reg.txs
  {
    HoldsMember(db.utxos, Entries(db.reg.txs, Unspent(db.reg.txs)), k, e);
  }

  /** Entries depend only on the transactions of their own outpoints. */
  lemma EntriesWithin(txs: Txs, all: Txs, u: set<Outpoint>)
    requires Within(txs, all) && forall o | o in u :: IsOutput(txs, o)
    ensures Entries(txs, u) == Entries(all, u)
  {
    assert forall o | o in u :: EntryOf(txs, o) == EntryOf(all, o);
  }

  lemma PersistTxsFromValid(db: Db, b: Block)
    requires Valid(db) && Fresh(db.reg.txs, b.txs)
    ensures
      var txs, u, all := db.reg.txs, Unspent(db.reg.txs), Store(db.reg.txs, b.height, b.txs);
      var r := PersistTxs(txs, db.utxos, b.height, b.txs);
      && (r.Ok? <==> Spendable(BlockSpends(b.txs), u))
      && (r.Ok? ==> Holds(r.value, Entries(all, u - AsSet(BlockSpends(b.txs)) + BlockOutpoints(b.txs))))
  {
    var txs, u, all := db.reg.txs, Unspent(db.reg.txs), Store(db.reg.txs, b.height, b.txs);
    StoreContents(txs, b.height, b.txs);
    EntriesWithin(txs, all, u);
    assert Available(txs, u) == u;
    PersistTxsExact(txs, all, db.utxos, u, b.height, b.txs);
  }

  /** The UTXO index accepts a block of new transactions exactly when nothing
      is spent twice, and then lists the new ledger. */
  lemma PersistUtxosExact(db: Db, b: Block)
    requires Valid(db) && Fresh(db.reg.txs, b.txs)
    ensures PersistUtxos(db.reg.txs, db.utxos, b).Ok? <==> Spendable(BlockSpends(b.txs), Unspent(db.reg.txs))
    ensures
      PersistUtxos(db.reg.txs, db.utxos, b).Ok? ==>
        var all := Store(db.reg.txs, b.height, b.txs);
        var m := PersistUtxos(db.reg.txs, db.utxos, b).value;
        Holds(m, Entries(all, Unspent(all))) && NoEmptyList(m)
  {
    var txs, s := db.reg.txs, b.txs;
    PersistTxsFromValid(db, b);
    if Spendable(BlockSpends(s), Unspent(txs)) {
      var all := Store(txs, b.height, s);
      UnspentAfterStore(txs, b.height, s);
      HoldsNormalize(PersistTxs(txs, db.utxos, b.height, s).value, Entries(all, Unspent(all)));
    }
  }

  lemma PersistUnspentExact(db: Db, b: Block)
    requires Valid(db) && Fresh(db.reg.txs, b.txs)
    requires Spendable(BlockSpends(b.txs), Unspent(db.reg.txs))
    ensures I.PersistUnspent(db.unspent, b.txs).Ok?
    ensures
      var m := I.PersistUnspent(db.unspent, b.txs).value;
      Holds(m, Slots(Unspent(Store(db.reg.txs, b.height, b.txs)))) && NoEmptyList(m)
  {
    var txs, u := db.reg.txs, Unspent(db.reg.txs);
    forall i | 0 <= i < |b.txs| ensures b.txs[i].hash !in db.unspent {
      if b.txs[i].hash in db.unspent {
        UnspentKeysStored(db, b.txs[i].hash);
      }
    }
    assert Available(txs, u) == u;
    assert db.unspent + map[] == db.unspent;
    I.PersistTxsExact(txs, db.unspent, map[], u, b.txs);
    UnspentAfterStore(txs, b.height, b.txs);
    var cache := I.PersistTxs(db.unspent, map[], b.txs).value;
    FlushNormalizes(db.unspent, cache);
    HoldsNormalize(db.unspent + cache, Slots(Unspent(Store(txs, b.height, b.txs))));
  }

  /** A block of new transactions is accepted exactly when nothing is spent
      twice and its registrations and recharges can be recorded; the new state
      is again an exact index of its transactions. */
  lemma PersistExact(db: Db, b: Block)
    requires Valid(db) && Fresh(db.reg.txs, b.txs)
    ensures Persist(db, b).Ok? <==> Acceptable(db, b)
    ensures Persist(db, b).Ok? ==>
              Valid(Persist(db, b).value) && Persist(db, b).value.reg.txs == Store(db.reg.txs, b.height, b.txs)
  {
    PersistUtxosExact(db, b);
    R.PersistExact(db.reg, b.height, b.txs);
    if Acceptable(db, b) {
      PersistUnspentExact(db, b);
      SoundAfterStore(db.reg.txs, b.height, b.txs);
      StoreContents(db.reg.txs, b.height, b.txs);
    }
  }

  /** Two valid states with the same records are the same up to list order. */
  lemma RecordsDetermine(db: Db, db': Db)
    requires Valid(db) && Valid(db') && db.reg == db'.reg
    ensures SameDb(db, db')
  {
    HoldsDetermines(db.utxos, db'.utxos, Entries(db.reg.txs, Unspent(db.reg.txs)));
    HoldsDetermines(db.unspent, db'.unspent, Slots(Unspent(db.reg.txs)));
  }

  lemma SameDbValid(db: Db, db': Db)
    requires SameDb(db, db') && Valid(db)
    ensures Valid(db')
  {
    SameBagsHolds(db.utxos, db'.utxos, Entries(db.reg.txs, Unspent(db.reg.txs)));
    SameBagsHolds(db.unspent, db'.unspent, Slots(Unspent(db.reg.txs)));
  }

  /** `db` is a state right after block `b` was accepted on the transactions `txs`. */
  ghost predicate After(txs: Txs, b: Block, db: Db) {
    && Valid(db) && Sound(txs) && ELA_ASSET_ID in txs && Fresh(txs, b.txs)
    && Spendable(BlockSpends(b.txs), Unspent(txs))
    && db.reg.txs == Store(txs, b.height, b.txs)
  }

  lemma AfterOutgoing(txs: Txs, b: Block, db: Db)
    requires After(txs, b, db)
    ensures
      var all := db.reg.txs;
      && Outgoing(all, Unspent(all), b.height, b.txs)
      && Lists(all, db.utxos, Unspent(all))
      && Unspent(all) - BlockOutpoints(b.txs) + AsSet(BlockSpends(b.txs)) == Unspent(txs)
      && Within(txs, all)
  {
    UnspentAfterStore(txs, b.height, b.txs);
    StoreContents(txs, b.height, b.txs);
    forall o | o in BlockOutpoints(b.txs) ensures o !in Unspent(txs) {
      BlockOutpointsMembers(b.txs, o);
    }
  }

  lemma RollbackUtxosExact(txs: Txs, b: Block, db: Db)
    requires After(txs, b, db)
    ensures RollbackUtxos(Corrected, db.reg.txs, db.utxos, b).Ok?
    ensures
      var m := RollbackUtxos(Corrected, db.reg.txs, db.utxos, b).value;
      Holds(m, Entries(txs, Unspent(txs))) && NoEmptyList(m)
  {
    var all := db.reg.txs;
    AfterOutgoing(txs, b, db);
    RollbackTxsExact(all, db.utxos, Unspent(all), b.height, b.txs);
    EntriesWithin(txs, all, Unspent(txs));
    HoldsNormalize(RollbackTxs(Corrected, all, db.utxos, b.height, b.txs).value, Entries(txs, Unspent(txs)));
  }

  lemma RollbackUnspentExact(txs: Txs, b: Block, db: Db)
    requires After(txs, b, db)
    ensures
      var m := I.RollbackUnspent(db.unspent, b.txs);
      Holds(m, Slots(Unspent(txs))) && NoEmptyList(m)
  {
    var all, s := db.reg.txs, b.txs;
    var own, u := Hashes(s), Unspent(all) - BlockOutpoints(s);
    AfterOutgoing(txs, b, db);
    I.DeleteOwnExact(all, db.unspent, Unspent(all), b.height, s);
    assert db.unspent - own + map[] == db.unspent - own;
    I.RestoreAllExact(db.unspent, map[], own, u, BlockSpends(s));
    var cache := I.RestoreAll(db.unspent, map[], BlockSpends(s));
    FlushNormalizes(db.unspent - own, cache);
    HoldsNormalize(db.unspent - own + cache, Slots(Unspent(txs)));
  }

  /** With the referenced hash restored, rolling back the last block gives a valid
      state of the earlier transactions, from any list order. */
  lemma RollbackExact(txs: Txs, b: Block, db: Db)
    requires After(txs, b, db) && forall n | 0 <= n < |b.txs| :: Recordable(b.txs[n])
    ensures Rollback(Corrected, db, b).Ok?
    ensures Valid(Rollback(Corrected, db, b).value)
    ensures Rollback(Corrected, db, b).value.reg ==
              Registry(txs, db.reg.assets - AssetHashes(b.txs), db.reg.mainchain - MainHashes(b.txs))
  {
    RollbackUtxosExact(txs, b, db);
    RollbackUnspentExact(txs, b, db);
    R.RollbackExact(db.reg, b.txs);
    UnstoreUndoesStore(txs, b.height, b.txs);
  }
}
