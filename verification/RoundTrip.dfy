/** Rolling back the block just persisted: exactly when it restores the store. */
module RoundTrip {
  import opened Bytes
  import opened Types
  import opened Buckets
  import opened Ledger
  import opened UtxoIndex
  import opened UtxoRollback
  import I = UnspentIndex
  import opened R = Registry
  import opened ChainDb

  /** A state right after `db` accepted `b`, with any order inside its lists. */
  ghost predicate Persisted(db: Db, b: Block, db': Db) {
    && Valid(db) && Fresh(db.reg.txs, b.txs)
    && Persist(db, b).Ok? && SameDb(Persist(db, b).value, db')
  }

  lemma PersistedAfter(db: Db, b: Block, db': Db)
    requires Persisted(db, b, db')
    ensures After(db.reg.txs, b, db')
    ensures forall n | 0 <= n < |b.txs| :: Recordable(b.txs[n])
  {
    ChainDb.PersistExact(db, b);
    SameDbValid(Persist(db, b).value, db');
  }

  /** The IX_Unspent lists come back for every accepted block. */
  lemma UnspentRestored(db: Db, b: Block, db': Db)
    requires Persisted(db, b, db')
    ensures SameBags(db.unspent, I.RollbackUnspent(db'.unspent, b.txs))
  {
    PersistedAfter(db, b, db');
    RollbackUnspentExact(db.reg.txs, b, db');
    HoldsDetermines(db.unspent, I.RollbackUnspent(db'.unspent, b.txs), Slots(Unspent(db.reg.txs)));
  }

  /** The spends of the last block, as stored outpoints. */
  lemma AfterLeaving(txs: Txs, b: Block, db: Db)
    requires After(txs, b, db)
    ensures
      var all := db.reg.txs;
      && Leaving(all, Unspent(all), b.height, b.txs)
      && Unspent(all) - BlockOutpoints(b.txs) == Unspent(txs) - AsSet(BlockSpends(b.txs))
  {
    UnspentAfterStore(txs, b.height, b.txs);
    AfterOutgoing(txs, b, db);
    forall o | o in BlockOutpoints(b.txs) ensures o !in Unspent(txs) {
      BlockOutpointsMembers(b.txs, o);
    }
  }

  lemma AsWrittenView(all: Txs, b: Block, m: UtxoLists)
    requires Lists(all, m, Unspent(all)) && Leaving(all, Unspent(all), b.height, b.txs)
    ensures RollbackTxs(AsWritten, all, m, b.height, b.txs).Ok?
    ensures HoldsBeside(RollbackTxs(AsWritten, all, m, b.height, b.txs).value,
                        Entries(all, Unspent(all) - BlockOutpoints(b.txs)), multiset(BlockStrays(all, b.txs)))
  {
    HoldsBesideNothing(m, Entries(all, Unspent(all)));
    RollbackTxsBeside(all, m, Unspent(all), multiset{}, b.height, b.txs);
    assert multiset{} + multiset(BlockStrays(all, b.txs)) == multiset(BlockStrays(all, b.txs));
  }

  lemma AfterSpends(txs: Txs, b: Block, db: Db)
    requires After(txs, b, db)
    ensures forall o | o in BlockSpends(b.txs) :: IsOutput(txs, o) && IsOutput(db.reg.txs, o)
    ensures
      var left := Unspent(txs) - AsSet(BlockSpends(b.txs));
      Entries(db.reg.txs, left) == Entries(txs, left)
  {
    AfterOutgoing(txs, b, db);
    EntriesWithin(txs, db.reg.txs, Unspent(txs) - AsSet(BlockSpends(b.txs)));
  }

  /** As written, exactly: after rolling back the last block the lists hold every
      entry of the earlier ledger that the block did not spend, once, and for each
      of its spends the entry that was spent, with its value, under the hash of the
      spender. */
  lemma AsWrittenExact(txs: Txs, b: Block, db: Db)
    requires After(txs, b, db)
    ensures forall o | o in BlockSpends(b.txs) :: IsOutput(txs, o) && IsOutput(db.reg.txs, o)
    ensures RollbackUtxos(AsWritten, db.reg.txs, db.utxos, b).Ok?
    ensures
      var m := RollbackUtxos(AsWritten, db.reg.txs, db.utxos, b).value;
      && HoldsBeside(m, Entries(txs, Unspent(txs) - AsSet(BlockSpends(b.txs))), multiset(BlockStrays(db.reg.txs, b.txs)))
      && NoEmptyList(m)
  {
    AfterLeaving(txs, b, db);
    AfterOutgoing(txs, b, db);
    AfterSpends(txs, b, db);
    AsWrittenView(db.reg.txs, b, db.utxos);
    BesideNormalize(RollbackTxs(AsWritten, db.reg.txs, db.utxos, b.height, b.txs).value,
                    Entries(txs, Unspent(txs) - AsSet(BlockSpends(b.txs))), multiset(BlockStrays(db.reg.txs, b.txs)));
  }

  lemma StrayIsListed(all: Txs, s: seq<Tx>, m: UtxoLists, entries: set<(BucketKey, Utxo)>) returns (k: BucketKey, e: Utxo)
    requires BlockSpends(s) != [] && forall o | o in BlockSpends(s) :: IsOutput(all, o)
    requires HoldsBeside(m, entries, multiset(BlockStrays(all, s)))
    ensures e in Bucket(m, k) && exists n | 0 <= n < |s| :: e.txid == s[n].hash
  {
    BlockStraysSome(all, s);
    var stray := BlockStrays(all, s)[0];
    k, e := stray.0, stray.1;
    assert stray in multiset(BlockStrays(all, s));
    BesideMember(m, entries, multiset(BlockStrays(all, s)), k, e);
  }

  /** As written, a rolled back spend leaves an entry of a transaction that is gone. */
  lemma AsWrittenLeaves(txs: Txs, b: Block, db: Db) returns (k: BucketKey, e: Utxo)
    requires After(txs, b, db) && BlockSpends(b.txs) != []
    ensures RollbackUtxos(AsWritten, db.reg.txs, db.utxos, b).Ok?
    ensures e in Bucket(RollbackUtxos(AsWritten, db.reg.txs, db.utxos, b).value, k) && e.txid !in txs
  {
    AsWrittenExact(txs, b, db);
    k, e := StrayIsListed(db.reg.txs, b.txs, RollbackUtxos(AsWritten, db.reg.txs, db.utxos, b).value,
                          Entries(txs, Unspent(txs) - AsSet(BlockSpends(b.txs))));
  }

  lemma AsWrittenDiffers(db: Db, b: Block, db': Db)
    requires Persisted(db, b, db') && BlockSpends(b.txs) != []
    ensures
      var back := RollbackUtxos(AsWritten, db'.reg.txs, db'.utxos, b);
      back.Ok? && !SameBags(db.utxos, back.value)
  {
    PersistedAfter(db, b, db');
    var k, e := AsWrittenLeaves(db.reg.txs, b, db');
    var back := RollbackUtxos(AsWritten, db'.reg.txs, db'.utxos, b).value;
    if SameBags(db.utxos, back) {
      assert e in multiset(back[k]) && e in Bucket(db.utxos, k);
      EntriesStored(db, k, e);
    }
  }

  /** The UTXO index comes back up to list order: always with the referenced
      hash, and as written exactly when the block spends nothing. */
  lemma UtxosRestoredExact(mode: RestoredHash, db: Db, b: Block, db': Db)
    requires Persisted(db, b, db')
    ensures
      var back := RollbackUtxos(mode, db'.reg.txs, db'.utxos, b);
      back.Ok? && (SameBags(db.utxos, back.value) <==> mode.Corrected? || BlockSpends(b.txs) == [])
  {
    PersistedAfter(db, b, db');
    if mode.AsWritten? && BlockSpends(b.txs) != [] {
      AsWrittenDiffers(db, b, db');
    } else {
      if mode.AsWritten? {
        ModesAgreeWithoutSpends(db'.reg.txs, db'.utxos, b.height, b.txs);
      }
      RollbackUtxosExact(db.reg.txs, b, db');
      HoldsDetermines(db.utxos, RollbackUtxos(Corrected, db'.reg.txs, db'.utxos, b).value,
                      Entries(db.reg.txs, Unspent(db.reg.txs)));
    }
  }

  /** When rolling a block back restores the store it was persisted on. */
  ghost predicate Restorable(mode: RestoredHash, db: Db, b: Block) {
    NewRecords(db.reg, b.txs) && (mode.Corrected? || BlockSpends(b.txs) == [])
  }

  /** The whole store comes back exactly when, besides, no asset or main chain
      hash of the block had been recorded before. */
  lemma RoundTripExact(mode: RestoredHash, db: Db, b: Block, db': Db)
    requires Persisted(db, b, db')
    ensures Rollback(mode, db', b).Ok?
    ensures SameDb(db, Rollback(mode, db', b).value) <==> Restorable(mode, db, b)
  {
    UtxosRestoredExact(mode, db, b, db');
    UnspentRestored(db, b, db');
    R.RecordsRestoredExact(db.reg, b.height, b.txs);
  }

  /** Whatever was recorded before, the state after a rollback is a valid one of
      the earlier transactions exactly when the block spends nothing or the
      referenced hash is restored. */
  lemma RollbackValidExact(mode: RestoredHash, txs: Txs, b: Block, db: Db)
    requires After(txs, b, db) && forall n | 0 <= n < |b.txs| :: Recordable(b.txs[n])
    ensures
      var back := Rollback(mode, db, b);
      && back.Ok?
      && back.value.reg.txs == txs
      && (Valid(back.value) <==> mode.Corrected? || BlockSpends(b.txs) == [])
  {
    ChainDb.RollbackExact(txs, b, db);
    if mode.AsWritten? {
      if BlockSpends(b.txs) == [] {
        ModesAgreeWithoutSpends(db.reg.txs, db.utxos, b.height, b.txs);
      } else {
        var k, e := AsWrittenLeaves(txs, b, db);
        var back := Rollback(AsWritten, db, b).value;
        if Valid(back) {
          EntriesStored(back, k, e);
        }
      }
    }
  }

  lemma SameAsItself(db: Db)
    ensures SameDb(db, db)
  {
  }
}
