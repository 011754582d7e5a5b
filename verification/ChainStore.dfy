/** The store itself: the loops of chainstore.go over cached lists and a write
    batch, each proved to compute what the index modules specify. */
module ChainStore {
  import opened Types
  import opened Bytes
  import opened Buckets
  import opened Ledger
  import opened UtxoIndex
  import I = UnspentIndex
  import R = Registry
  import opened ChainDb
  import opened Streams
  import C = UtxoCodec
  import opened Batches
  import opened RoundTrip

  class Batch {
    var ops: seq<BatchOp>

    constructor ()
      ensures ops == []
    {
      ops := [];
    }
  }

  lemma {:induction false} FindIndexIs(l: seq<uint16>, i: uint16, p: nat)
    requires p <= |l| && (forall q | 0 <= q < p :: l[q] != i) && (p < |l| ==> l[p] == i)
    ensures I.FindIndex(l, i) == p
  {
    if p > 0 {
      assert forall q | 0 <= q < p - 1 :: l[1..][q] == l[q + 1];
      FindIndexIs(l[1..], i, p - 1);
    }
  }

  lemma MinusOneMore<K, V>(m: map<K, V>, a: set<K>, x: K)
    ensures m - a - {x} == m - (a + {x})
  {
  }

  /** The operations `ops` delete the own lists of the first `n` transactions. */
  ghost predicate Deletes(db: Db, s: seq<Tx>, n: nat, ops: seq<BatchOp>)
    requires n <= |s|
  {
    OnlyUnspent(ops) && Apply(db, ops) == db.(unspent := db.unspent - Hashes(s[..n]))
  }

  lemma DeletesNone(db: Db, s: seq<Tx>)
    ensures Deletes(db, s, 0, [])
  {
    assert db.unspent - Hashes(s[..0]) == db.unspent;
  }

  lemma DeletesNext(db: Db, s: seq<Tx>, n: nat, ops: seq<BatchOp>)
    requires n < |s| && Deletes(db, s, n, ops)
    ensures Deletes(db, s, n + 1, ops + [DeleteUnspent(s[n].hash)])
  {
    DeleteStep(db, ops, Hashes(s[..n]), s[n].hash);
    OwnHashesLast(s, n + 1);
  }

  lemma DeleteApplied(db: Db, t: Uint256)
    ensures DeleteUnspent(t).OnUnspent()
    ensures ApplyOne(db, DeleteUnspent(t)) == db.(unspent := db.unspent - {t})
  {
  }

  lemma OnlyUnspentSnoc(ops: seq<BatchOp>, op: BatchOp)
    requires OnlyUnspent(ops) && op.OnUnspent()
    ensures OnlyUnspent(ops + [op])
  {
  }

  lemma DeleteStep(db: Db, ops: seq<BatchOp>, own: set<Uint256>, t: Uint256)
    requires OnlyUnspent(ops) && Apply(db, ops) == db.(unspent := db.unspent - own)
    ensures OnlyUnspent(ops + [DeleteUnspent(t)])
    ensures Apply(db, ops + [DeleteUnspent(t)]) == db.(unspent := db.unspent - (own + {t}))
  {
    var op, before := DeleteUnspent(t), Apply(db, ops);
    DeleteApplied(before, t);
    OnlyUnspentSnoc(ops, op);
    ApplySnoc(db, ops, op);
    MinusOneMore(db.unspent, own, t);
  }

  lemma OwnHashesLast(s: seq<Tx>, n: nat)
    requires 0 < n <= |s|
    ensures Hashes(s[..n]) == Hashes(s[..n - 1]) + {s[n - 1].hash}
  {
    assert forall i | 0 <= i < n - 1 :: s[..n][i] == s[..n - 1][i];
    assert s[..n][n - 1] == s[n - 1];
  }

  lemma PersistVerdict(db: Db, b: Block)
    ensures Valid(db) && Fresh(db.reg.txs, b.txs) ==>
              && (Persist(db, b).Ok? <==> Acceptable(db, b))
              && (Persist(db, b).Ok? ==> Valid(Persist(db, b).value))
  {
    if Valid(db) && Fresh(db.reg.txs, b.txs) {
      ChainDb.PersistExact(db, b);
    }
  }

  lemma EncodedParts(utxoOps: seq<BatchOp>, recordOps: seq<BatchOp>, unspentOps: seq<BatchOp>)
    requires OnlyUtxos(utxoOps) && OnlyRecords(recordOps) && OnlyUnspent(unspentOps)
    ensures Encoded(utxoOps + recordOps + unspentOps)
  {
  }

  /** What the three parts of one block's batch add up to. */
  lemma FilledPersist(db: Db, b: Block, utxoOps: seq<BatchOp>, recordOps: seq<BatchOp>, unspentOps: seq<BatchOp>)
    requires OnlyUtxos(utxoOps) && OnlyRecords(recordOps) && OnlyUnspent(unspentOps)
    requires
      var utxos, reg, unspent := PersistUtxos(db.reg.txs, db.utxos, b), R.PersistTransactions(db.reg, b.height, b.txs), I.PersistUnspent(db.unspent, b.txs);
      && utxos.Ok? && Apply(db, utxoOps) == db.(utxos := utxos.value)
      && reg.Ok? && Apply(db, recordOps) == db.(reg := reg.value)
      && unspent.Ok? && Apply(db, unspentOps) == db.(unspent := unspent.value)
    ensures
      var ops := utxoOps + recordOps + unspentOps;
      Persist(db, b) == Ok(Apply(db, ops)) && Encoded(ops)
  {
    CommitParts(db, utxoOps, recordOps, unspentOps, Persist(db, b).value);
    EncodedParts(utxoOps, recordOps, unspentOps);
  }

  lemma FilledRollback(mode: RestoredHash, db: Db, b: Block, utxoOps: seq<BatchOp>, recordOps: seq<BatchOp>, unspentOps: seq<BatchOp>)
    requires OnlyUtxos(utxoOps) && OnlyRecords(recordOps) && OnlyUnspent(unspentOps)
    requires
      var utxos, reg := RollbackUtxos(mode, db.reg.txs, db.utxos, b), R.RollbackTransactions(db.reg, b.txs);
      && utxos.Ok? && Apply(db, utxoOps) == db.(utxos := utxos.value)
      && reg.Ok? && Apply(db, recordOps) == db.(reg := reg.value)
      && Apply(db, unspentOps) == db.(unspent := I.RollbackUnspent(db.unspent, b.txs))
    ensures
      var ops := utxoOps + recordOps + unspentOps;
      Rollback(mode, db, b) == Ok(Apply(db, ops)) && Encoded(ops)
  {
    CommitParts(db, utxoOps, recordOps, unspentOps, Rollback(mode, db, b).value);
    EncodedParts(utxoOps, recordOps, unspentOps);
  }

  /** A rollback fails with the first error of its parts. */
  lemma RollbackErrors(mode: RestoredHash, db: Db, b: Block)
    ensures
      var utxos, reg := RollbackUtxos(mode, db.reg.txs, db.utxos, b), R.RollbackTransactions(db.reg, b.txs);
      && (utxos.Err? ==> Rollback(mode, db, b) == Err(utxos.error))
      && (utxos.Ok? && reg.Err? ==> Rollback(mode, db, b) == Err(reg.error))
  {
  }

  lemma NormalizedHasNoEmpty(m: UtxoLists)
    ensures NoEmptyList(Normalize(m))
  {
  }

  lemma PersistKeepsNormal(db: Db, b: Block)
    ensures Persist(db, b).Ok? ==> NoEmptyList(Persist(db, b).value.utxos)
  {
    if Persist(db, b).Ok? {
      NormalizedHasNoEmpty(PersistTxs(db.reg.txs, db.utxos, b.height, b.txs).value);
    }
  }

  lemma RollbackKeepsNormal(mode: RestoredHash, db: Db, b: Block)
    ensures Rollback(mode, db, b).Ok? ==> NoEmptyList(Rollback(mode, db, b).value.utxos)
  {
    if Rollback(mode, db, b).Ok? {
      NormalizedHasNoEmpty(RollbackTxs(mode, db.reg.txs, db.utxos, b.height, b.txs).value);
    }
  }

  lemma RollbackVerdict(mode: RestoredHash, db: Db, b: Block)
    ensures forall before | Persisted(before, b, db) ::
              && Rollback(mode, db, b).Ok?
              && (SameDb(before, Rollback(mode, db, b).value) <==> Restorable(mode, before, b))
  {
    forall before | Persisted(before, b, db)
      ensures Rollback(mode, db, b).Ok?
      ensures SameDb(before, Rollback(mode, db, b).value) <==> Restorable(mode, before, b)
    {
      RoundTripExact(mode, before, b, db);
    }
  }

  function Fold<A, B>(f: (A, B) -> A, a: A, s: seq<B>): A {
    if s == [] then a else Fold(f, f(a, s[0]), s[1..])
  }

  lemma {:induction false} FoldConcat<A, B>(f: (A, B) -> A, a: A, s: seq<B>, s': seq<B>)
    ensures Fold(f, a, s + s') == Fold(f, Fold(f, a, s), s')
    decreases s
  {
    if s == [] {
      assert s + s' == s';
    } else {
      assert (s + s')[0] == s[0] && (s + s')[1..] == s[1..] + s';
      FoldConcat(f, f(a, s[0]), s[1..], s');
    }
  }

  lemma FoldSnoc<A, B>(f: (A, B) -> A, a: A, s: seq<B>, n: nat)
    requires n < |s|
    ensures Fold(f, a, s[..n + 1]) == f(Fold(f, a, s[..n]), s[n])
  {
    assert s[..n + 1] == s[..n] + [s[n]] && [s[n]][1..] == [];
    FoldConcat(f, a, s[..n], [s[n]]);
    assert Fold(f, Fold(f, a, s[..n]), [s[n]]) == f(Fold(f, a, s[..n]), s[n]);
  }

  /** One step of the loop that restores index lists. */
  function Restorer(store: I.IndexLists): (I.IndexLists, Outpoint) -> I.IndexLists {
    (cache: I.IndexLists, o: Outpoint) => I.RestoreOne(store, cache, o)
  }

  lemma {:induction false} RestoreAllFolds(store: I.IndexLists, cache: I.IndexLists, spends: seq<Outpoint>)
    ensures I.RestoreAll(store, cache, spends) == Fold(Restorer(store), cache, spends)
    decreases spends
  {
    if spends != [] {
      var next := I.RestoreOne(store, cache, spends[0]);
      assert Restorer(store)(cache, spends[0]) == next;
      RestoreAllFolds(store, next, spends[1..]);
    }
  }

  lemma {:induction false} SpendsConcat(s: seq<Tx>, tx: Tx)
    ensures BlockSpends(s + [tx]) == BlockSpends(s) + tx.Spends()
    decreases s
  {
    if s == [] {
      assert s + [tx] == [tx] && [tx][1..] == [];
      assert BlockSpends([tx]) == tx.Spends() + [];
    } else {
      assert (s + [tx])[0] == s[0] && (s + [tx])[1..] == s[1..] + [tx];
      SpendsConcat(s[1..], tx);
    }
  }

  /** The cache after the spends of the first `n` transactions are restored. */
  function RestoredFirst(store: I.IndexLists, s: seq<Tx>, n: nat): I.IndexLists
    requires n <= |s|
  {
    Fold(Restorer(store), map[], BlockSpends(s[..n]))
  }

  lemma RestoredNext(store: I.IndexLists, s: seq<Tx>, n: nat)
    requires n < |s|
    ensures RestoredFirst(store, s, n + 1) == Fold(Restorer(store), RestoredFirst(store, s, n), s[n].Spends())
  {
    assert s[..n + 1] == s[..n] + [s[n]];
    SpendsConcat(s[..n], s[n]);
    FoldConcat(Restorer(store), map[], BlockSpends(s[..n]), s[n].Spends());
  }

  /** Own lists deleted, then the restored lists written over what is left. */
  lemma FilledUnspent(db: Db, s: seq<Tx>, deletes: seq<BatchOp>, cache: I.IndexLists, flushed: seq<BatchOp>)
    requires Deletes(db, s, |s|, deletes) && cache == RestoredFirst(db.unspent, s, |s|) && OnlyUnspent(flushed)
    requires
      var left := Apply(db, deletes);
      Apply(left, flushed) == left.(unspent := Flush(left.unspent, cache))
    ensures OnlyUnspent(deletes + flushed)
    ensures Apply(db, deletes + flushed) == db.(unspent := I.RollbackUnspent(db.unspent, s))
  {
    assert s[..|s|] == s;
    RestoreAllFolds(db.unspent, map[], BlockSpends(s));
    ApplyConcat(db, deletes, flushed);
  }

  lemma ConcatAssociates<T>(a: seq<T>, b: seq<T>, c: seq<T>)
    ensures a + b + c == a + (b + c)
  {
  }

  class TokenChainStore {
    /** Committed state: what Get and GetTransaction read. */
    var db: Db
    /** The UTXO index as its bytes are stored. */
    var raw: map<seq<byte>, seq<byte>>
    /** Which transaction hash rollback gives the entries it restores. */
    const restored: RestoredHash

    constructor (genesis: Tx, restored: RestoredHash)
      requires IsGenesis(genesis)
      ensures db == InitDb(genesis) && this.restored == restored
      ensures C.Stores(raw, db.utxos)
    {
      db := InitDb(genesis);
      raw := map[];
      this.restored := restored;
    }

    // Both indexes load a list the first time they touch its key.

    method AddOutput(cache: UtxoLists, txn: Tx, height: uint32, index: nat) returns (cache': UtxoLists)
      requires index < |txn.outputs|
      ensures db.utxos + cache' == AddOne(db.utxos + cache, txn, height, index)
    {
      var output := txn.outputs[index];
      var key := KeyOf(output, height);
      cache' := cache;
      if key !in cache' {
        cache' := cache'[key := if key in db.utxos then db.utxos[key] else []];
      }
      var list := cache'[key] + [UtxoOf(txn.hash, ToUint32(index), output)];
      assert db.utxos + cache'[key := list] == (db.utxos + cache)[key := list];
      cache' := cache'[key := list];
    }

    method AddOutputs(cache: UtxoLists, txn: Tx, height: uint32) returns (cache': UtxoLists)
      ensures db.utxos + cache' == UtxoIndex.AddOutputs(db.utxos + cache, txn, height, 0)
    {
      cache' := cache;
      for i := 0 to |txn.outputs|
        invariant UtxoIndex.AddOutputs(db.utxos + cache', txn, height, i) == UtxoIndex.AddOutputs(db.utxos + cache, txn, height, 0)
      {
        cache' := AddOutput(cache', txn, height, i);
      }
    }

    method SpendInput(cache: UtxoLists, input: Outpoint) returns (r: Result<UtxoLists>)
      ensures
        match SpendOne(db.reg.txs, db.utxos + cache, input)
        case Ok(m) => r.Ok? && db.utxos + r.value == m
        case Err(e) => r == Err(e)
    {
      if input.txid !in db.reg.txs {
        return Err(TransactionNotFound);
      }
      var refer := db.reg.txs[input.txid];
      if input.index >= |refer.tx.outputs| {
        return Err(OutputIndexOutOfRange);
      }
      var key := KeyOf(refer.tx.outputs[input.index], refer.height);
      var loaded := cache;
      if key !in loaded {
        if key !in db.utxos {
          return Err(NoUnspentList);
        }
        loaded := loaded[key := db.utxos[key]];
      }
      var list := loaded[key];
      assert (db.utxos + cache)[key] == list;
      var i := 0;
      while i < |list| && !(list[i].txid == refer.tx.hash && list[i].index == input.index)
        invariant i <= |list|
        invariant forall q | 0 <= q < i :: list[q].txid != refer.tx.hash || list[q].index != input.index
      {
        i := i + 1;
      }
      FindIs(list, refer.tx.hash, input.index, i);
      if i == |list| {
        return Err(UtxoNotFound);
      }
      var removed := list[i := list[|list| - 1]][..|list| - 1];
      assert db.utxos + loaded[key := removed] == (db.utxos + cache)[key := SwapRemove(list, i)];
      return Ok(loaded[key := removed]);
    }

    method SpendInputs(cache: UtxoLists, txn: Tx) returns (r: Result<UtxoLists>)
      ensures
        match SpendAll(db.reg.txs, db.utxos + cache, txn.Spends())
        case Ok(m) => r.Ok? && db.utxos + r.value == m
        case Err(e) => r == Err(e)
    {
      var cache' := cache;
      if !txn.txType.CoinBase? {
        for j := 0 to |txn.inputs|
          invariant SpendAll(db.reg.txs, db.utxos + cache', txn.inputs[j..]) == SpendAll(db.reg.txs, db.utxos + cache, txn.Spends())
        {
          assert txn.inputs[j..][0] == txn.inputs[j] && txn.inputs[j..][1..] == txn.inputs[j + 1..];
          var r' := SpendInput(cache', txn.inputs[j]);
          if r'.Err? {
            return r';
          }
          cache' := r'.value;
        }
        assert txn.inputs[|txn.inputs|..] == [];
      }
      return Ok(cache');
    }

    method PersistUnspentWithProgramHash(batch: Batch, key: BucketKey, unspents: seq<Utxo>)
      modifies batch
      ensures batch.ops == old(batch.ops) + [WriteOf(key, unspents)]
    {
      var rawKey: seq<byte> := [C.IX_UNSPENT_UTXO] + key.programHash.bytes;
      rawKey := rawKey + key.assetID.bytes;
      rawKey := rawKey + LittleEndian(key.height, 4);
      assert rawKey == C.EncodeKey(key);
      if |unspents| == 0 {
        batch.ops := batch.ops + [DeleteUtxos(key, rawKey)];
        return;
      }
      var data := WriteVarUint(|unspents|);
      for i := 0 to |unspents|
        invariant data + C.EncodeUtxos(unspents[i..]) == C.EncodeList(unspents)
      {
        assert unspents[i..][0] == unspents[i] && unspents[i..][1..] == unspents[i + 1..];
        data := data + C.EncodeUtxo(unspents[i]);
      }
      assert unspents[|unspents|..] == [] && data + [] == data;
      batch.ops := batch.ops + [PutUtxos(key, unspents, rawKey, data)];
    }

    /** Writes the cached lists back, in whatever order the map gives them. */
    method FlushUtxos(batch: Batch, cache: UtxoLists) returns (ghost added: seq<BatchOp>)
      modifies batch
      ensures batch.ops == old(batch.ops) + added && OnlyUtxos(added)
      ensures Apply(db, added) == db.(utxos := Flush(db.utxos, cache))
    {
      added := [];
      var todo := cache.Keys;
      ghost var done: set<BucketKey> := {};
      assert Flush(db.utxos, Part(cache, done)) == db.utxos;
      while todo != {}
        invariant todo !! done && todo + done == cache.Keys
        invariant batch.ops == old(batch.ops) + added && OnlyUtxos(added)
        invariant Apply(db, added) == db.(utxos := Flush(db.utxos, Part(cache, done)))
      {
        var key :| key in todo;
        PersistUnspentWithProgramHash(batch, key, cache[key]);
        ghost var op := WriteOf(key, cache[key]);
        FlushUtxosStep(db, cache, added, done, key, op);
        added := added + [op];
        todo, done := todo - {key}, done + {key};
      }
      assert Part(cache, done) == cache;
    }

    method PersistUnspendUTXOs(batch: Batch, b: Block) returns (err: Option<StoreError>, ghost added: seq<BatchOp>)
      requires NoEmptyList(db.utxos)
      modifies batch
      ensures batch.ops == old(batch.ops) + added && OnlyUtxos(added)
      ensures
        match PersistUtxos(db.reg.txs, db.utxos, b)
        case Ok(utxos) => err.None? && Apply(db, added) == db.(utxos := utxos)
        case Err(e) => err == Some(e) && added == []
    {
      var cache: UtxoLists := map[];
      added := [];
      assert db.utxos + cache == db.utxos;
      for n := 0 to |b.txs|
        invariant PersistTxs(db.reg.txs, db.utxos + cache, b.height, b.txs[n..]) == PersistTxs(db.reg.txs, db.utxos, b.height, b.txs)
        invariant batch.ops == old(batch.ops)
      {
        var txn := b.txs[n];
        assert b.txs[n..][0] == txn && b.txs[n..][1..] == b.txs[n + 1..];
        cache := AddOutputs(cache, txn, b.height);
        var r := SpendInputs(cache, txn);
        if r.Err? {
          err := Some(r.error);
          return;
        }
        cache := r.value;
      }
      assert b.txs[|b.txs|..] == [];
      added := FlushUtxos(batch, cache);
      FlushNormalizes(db.utxos, cache);
      err := None;
    }

    method RemoveOutput(cache: UtxoLists, txn: Tx, height: uint32, index: nat) returns (r: Result<UtxoLists>)
      requires index < |txn.outputs|
      ensures
        match RemoveOne(db.utxos + cache, txn, height, index)
        case Ok(m) => r.Ok? && db.utxos + r.value == m
        case Err(e) => r == Err(e)
    {
      var key := KeyOf(txn.outputs[index], height);
      var loaded := cache;
      if key !in loaded {
        if key !in db.utxos {
          return Err(NoUnspentList);
        }
        loaded := loaded[key := db.utxos[key]];
      }
      var list := loaded[key];
      assert (db.utxos + cache)[key] == list;
      var position := 0;
      var i := 0;
      while i < |list|
        invariant i <= |list| && position == 0
        invariant forall q | 0 <= q < i :: list[q].txid != txn.hash || list[q].index != ToUint32(index)
      {
        if list[i].txid == txn.hash && list[i].index == ToUint32(index) {
          position := i;
          break;
        }
        i := i + 1;
      }
      FindIs(list, txn.hash, ToUint32(index), i);
      if |list| == 0 {
        return Err(EmptyListPanic);
      }
      var removed := list[..position] + list[position + 1..];
      assert db.utxos + loaded[key := removed] == (db.utxos + cache)[key := Splice(list, position)];
      return Ok(loaded[key := removed]);
    }

    method RemoveOutputs(cache: UtxoLists, txn: Tx, height: uint32) returns (r: Result<UtxoLists>)
      ensures
        match UtxoIndex.RemoveOutputs(db.utxos + cache, txn, height, 0)
        case Ok(m) => r.Ok? && db.utxos + r.value == m
        case Err(e) => r == Err(e)
    {
      var cache' := cache;
      for i := 0 to |txn.outputs|
        invariant UtxoIndex.RemoveOutputs(db.utxos + cache', txn, height, i) == UtxoIndex.RemoveOutputs(db.utxos + cache, txn, height, 0)
      {
        var r' := RemoveOutput(cache', txn, height, i);
        if r'.Err? {
          return r';
        }
        cache' := r'.value;
      }
      return Ok(cache');
    }

    method RestoreInput(cache: UtxoLists, txn: Tx, input: Outpoint) returns (r: Result<UtxoLists>)
      ensures
        match RestoreOne(restored, db.reg.txs, db.utxos + cache, txn, input)
        case Ok(m) => r.Ok? && db.utxos + r.value == m
        case Err(e) => r == Err(e)
    {
      if input.txid !in db.reg.txs {
        return Err(TransactionNotFound);
      }
      var refer := db.reg.txs[input.txid];
      if input.index >= |refer.tx.outputs| {
        return Err(OutputIndexOutOfRange);
      }
      var output := refer.tx.outputs[input.index];
      var key := KeyOf(output, refer.height);
      var loaded := cache;
      if key !in loaded {
        loaded := loaded[key := if key in db.utxos then db.utxos[key] else []];
      }
      var hash := if restored.AsWritten? then txn.hash else refer.tx.hash;
      var list := loaded[key] + [UtxoOf(hash, input.index, output)];
      assert db.utxos + loaded[key := list] == (db.utxos + cache)[key := list];
      return Ok(loaded[key := list]);
    }

    method RestoreInputs(cache: UtxoLists, txn: Tx) returns (r: Result<UtxoLists>)
      ensures
        match RestoreAll(restored, db.reg.txs, db.utxos + cache, txn, txn.Spends())
        case Ok(m) => r.Ok? && db.utxos + r.value == m
        case Err(e) => r == Err(e)
    {
      var cache' := cache;
      if !txn.txType.CoinBase? {
        for j := 0 to |txn.inputs|
          invariant RestoreAll(restored, db.reg.txs, db.utxos + cache', txn, txn.inputs[j..])
                    == RestoreAll(restored, db.reg.txs, db.utxos + cache, txn, txn.Spends())
        {
          assert txn.inputs[j..][0] == txn.inputs[j] && txn.inputs[j..][1..] == txn.inputs[j + 1..];
          var r' := RestoreInput(cache', txn, txn.inputs[j]);
          if r'.Err? {
            return r';
          }
          cache' := r'.value;
        }
        assert txn.inputs[|txn.inputs|..] == [];
      }
      return Ok(cache');
    }

    method RollbackUnspendUTXOs(batch: Batch, b: Block) returns (err: Option<StoreError>, ghost added: seq<BatchOp>)
      requires NoEmptyList(db.utxos)
      modifies batch
      ensures batch.ops == old(batch.ops) + added && OnlyUtxos(added)
      ensures
        match RollbackUtxos(restored, db.reg.txs, db.utxos, b)
        case Ok(utxos) => err.None? && Apply(db, added) == db.(utxos := utxos)
        case Err(e) => err == Some(e) && added == []
    {
      var cache: UtxoLists := map[];
      added := [];
      assert db.utxos + cache == db.utxos;
      for n := 0 to |b.txs|
        invariant RollbackTxs(restored, db.reg.txs, db.utxos + cache, b.height, b.txs[n..])
                  == RollbackTxs(restored, db.reg.txs, db.utxos, b.height, b.txs)
        invariant batch.ops == old(batch.ops)
      {
        var txn := b.txs[n];
        assert b.txs[n..][0] == txn && b.txs[n..][1..] == b.txs[n + 1..];
        var r := RemoveOutputs(cache, txn, b.height);
        if r.Err? {
          err := Some(r.error);
          return;
        }
        r := RestoreInputs(r.value, txn);
        if r.Err? {
          err := Some(r.error);
          return;
        }
        cache := r.value;
      }
      assert b.txs[|b.txs|..] == [];
      added := FlushUtxos(batch, cache);
      FlushNormalizes(db.utxos, cache);
      err := None;
    }

    // The index lists of IX_Unspent.

    method SpendIndex(cache: I.IndexLists, input: Outpoint) returns (r: Result<I.IndexLists>)
      ensures r == I.SpendOne(db.unspent, cache, input)
    {
      var loaded := cache;
      if input.txid !in loaded {
        if input.txid !in db.unspent {
          return Err(NoUnspentList);
        }
        loaded := loaded[input.txid := db.unspent[input.txid]];
      }
      var list := loaded[input.txid];
      var k := 0;
      while k < |list| && list[k] != input.index
        invariant k <= |list| && forall q | 0 <= q < k :: list[q] != input.index
      {
        k := k + 1;
      }
      FindIndexIs(list, input.index, k);
      if k < |list| {
        list := list[k := list[|list| - 1]][..|list| - 1];
      }
      assert loaded[input.txid := list] == cache[input.txid := list];
      return Ok(loaded[input.txid := list]);
    }

    method PersistTxUnspent(cache: I.IndexLists, txn: Tx) returns (r: Result<I.IndexLists>)
      ensures r == I.PersistTx(db.unspent, cache, txn)
    {
      var cache': I.IndexLists := cache;
      for i := 0 to |txn.outputs|
        invariant I.OwnOutputs(cache', txn, i) == I.OwnOutputs(cache, txn, 0)
      {
        cache' := cache'[txn.hash := (if txn.hash in cache' then cache'[txn.hash] else []) + [ToUint16(i)]];
      }
      ghost var own := cache';
      if !txn.txType.CoinBase? {
        for j := 0 to |txn.inputs|
          invariant I.SpendAll(db.unspent, cache', txn.inputs[j..]) == I.SpendAll(db.unspent, own, txn.Spends())
        {
          assert txn.inputs[j..][0] == txn.inputs[j] && txn.inputs[j..][1..] == txn.inputs[j + 1..];
          var r' := SpendIndex(cache', txn.inputs[j]);
          if r'.Err? {
            return r';
          }
          cache' := r'.value;
        }
        assert txn.inputs[|txn.inputs|..] == [];
      }
      return Ok(cache');
    }

    /** Writes the cached index lists over `base`, the lists left by earlier deletions. */
    method FlushUnspent(batch: Batch, cache: I.IndexLists, ghost base: Db) returns (ghost added: seq<BatchOp>)
      modifies batch
      ensures batch.ops == old(batch.ops) + added && OnlyUnspent(added)
      ensures Apply(base, added) == base.(unspent := Flush(base.unspent, cache))
    {
      added := [];
      var todo := cache.Keys;
      ghost var done: set<Uint256> := {};
      assert Flush(base.unspent, Part(cache, done)) == base.unspent;
      while todo != {}
        invariant todo !! done && todo + done == cache.Keys
        invariant batch.ops == old(batch.ops) + added && OnlyUnspent(added)
        invariant Apply(base, added) == base.(unspent := Flush(base.unspent, Part(cache, done)))
      {
        var txhash :| txhash in todo;
        var op := if |cache[txhash]| == 0 then DeleteUnspent(txhash) else PutUnspent(txhash, cache[txhash]);
        batch.ops := batch.ops + [op];
        FlushUnspentStep(base, cache, added, done, txhash);
        added := added + [op];
        todo, done := todo - {txhash}, done + {txhash};
      }
      assert Part(cache, done) == cache;
    }

    method PersistUnspent(batch: Batch, b: Block) returns (err: Option<StoreError>, ghost added: seq<BatchOp>)
      modifies batch
      ensures batch.ops == old(batch.ops) + added && OnlyUnspent(added)
      ensures
        match I.PersistUnspent(db.unspent, b.txs)
        case Ok(unspent) => err.None? && Apply(db, added) == db.(unspent := unspent)
        case Err(e) => err == Some(e) && added == []
    {
      var cache: I.IndexLists := map[];
      added := [];
      for n := 0 to |b.txs|
        invariant I.PersistTxs(db.unspent, cache, b.txs[n..]) == I.PersistTxs(db.unspent, map[], b.txs)
        invariant batch.ops == old(batch.ops)
      {
        assert b.txs[n..][0] == b.txs[n] && b.txs[n..][1..] == b.txs[n + 1..];
        var r := PersistTxUnspent(cache, b.txs[n]);
        if r.Err? {
          err := Some(r.error);
          return;
        }
        cache := r.value;
      }
      assert b.txs[|b.txs|..] == [];
      added := FlushUnspent(batch, cache, db);
      err := None;
    }

    method DeleteAndRestore(batch: Batch, b: Block) returns (cache: I.IndexLists, ghost deletes: seq<BatchOp>)
      modifies batch
      ensures batch.ops == old(batch.ops) + deletes && Deletes(db, b.txs, |b.txs|, deletes)
      ensures cache == RestoredFirst(db.unspent, b.txs, |b.txs|)
    {
      cache, deletes := map[], [];
      DeletesNone(db, b.txs);
      for n := 0 to |b.txs|
        invariant batch.ops == old(batch.ops) + deletes && Deletes(db, b.txs, n, deletes)
        invariant cache == RestoredFirst(db.unspent, b.txs, n)
      {
        ghost var op := DeleteUnspent(b.txs[n].hash);
        ConcatAssociates(old(batch.ops), deletes, [op]);
        DeletesNext(db, b.txs, n, deletes);
        RestoredNext(db.unspent, b.txs, n);
        batch.ops := batch.ops + [DeleteUnspent(b.txs[n].hash)];
        deletes := deletes + [op];
        cache := RestoreIndexes(cache, b.txs[n]);
      }
    }

    /** The deletions of own lists go to the batch before the restored lists. */
    method RollbackUnspent(batch: Batch, b: Block) returns (ghost added: seq<BatchOp>)
      modifies batch
      ensures batch.ops == old(batch.ops) + added && OnlyUnspent(added)
      ensures Apply(db, added) == db.(unspent := I.RollbackUnspent(db.unspent, b.txs))
    {
      var cache;
      ghost var deletes, flushed;
      cache, deletes := DeleteAndRestore(batch, b);
      flushed := FlushUnspent(batch, cache, Apply(db, deletes));
      FilledUnspent(db, b.txs, deletes, cache, flushed);
      ConcatAssociates(old(batch.ops), deletes, flushed);
      added := deletes + flushed;
    }

    method RestoreIndexes(cache: I.IndexLists, txn: Tx) returns (cache': I.IndexLists)
      ensures cache' == Fold(Restorer(db.unspent), cache, txn.Spends())
    {
      cache' := cache;
      if !txn.txType.CoinBase? {
        for j := 0 to |txn.inputs|
          invariant cache' == Fold(Restorer(db.unspent), cache, txn.inputs[..j])
        {
          var input := txn.inputs[j];
          ghost var next := Restorer(db.unspent)(cache', input);
          FoldSnoc(Restorer(db.unspent), cache, txn.inputs, j);
          if input.txid !in cache' {
            if input.txid in db.unspent {
              cache' := cache'[input.txid := db.unspent[input.txid]];
            }
          }
          cache' := cache'[input.txid := (if input.txid in cache' then cache'[input.txid] else []) + [input.index]];
          assert cache' == next;
        }
        assert txn.inputs[..|txn.inputs|] == txn.inputs;
      }
    }

    // Transactions, assets and main chain hashes.

    method PersistRecords(batch: Batch, txn: Tx, height: uint32, ghost reg: R.Registry)
        returns (err: Option<StoreError>, ghost added: seq<BatchOp>)
      modifies batch
      ensures batch.ops == old(batch.ops) + added && OnlyRecords(added)
      ensures
        match R.PersistTx(reg, height, txn)
        case Ok(reg') => err.None? && Apply(db.(reg := reg), added) == db.(reg := reg')
        case Err(e) => err == Some(e)
    {
      err := None;
      added := [PutTx(txn.hash, TxEntry(txn, height))];
      batch.ops := batch.ops + [PutTx(txn.hash, TxEntry(txn, height))];
      ApplySnoc(db.(reg := reg), [], added[0]);
      match txn.txType {
        case RegisterAsset(asset, _, _) =>
          if asset.name == "ELA" {
            err := Some(SystemAssetName);
            return;
          }
          batch.ops := batch.ops + [PutAsset(asset.hash, AssetInfo(asset, height))];
          ApplySnoc(db.(reg := reg), added, PutAsset(asset.hash, AssetInfo(asset, height)));
          added := added + [PutAsset(asset.hash, AssetInfo(asset, height))];
        case RechargeToSideChain(None) =>
          err := Some(BadMainchainHash);
        case RechargeToSideChain(Some(hash)) =>
          batch.ops := batch.ops + [PutMainchain(hash)];
          ApplySnoc(db.(reg := reg), added, PutMainchain(hash));
          added := added + [PutMainchain(hash)];
        case _ =>
      }
    }

    method PersistTransactions(batch: Batch, b: Block) returns (err: Option<StoreError>, ghost added: seq<BatchOp>)
      modifies batch
      ensures batch.ops == old(batch.ops) + added && OnlyRecords(added)
      ensures
        match R.PersistTransactions(db.reg, b.height, b.txs)
        case Ok(reg) => err.None? && Apply(db, added) == db.(reg := reg)
        case Err(e) => err == Some(e)
    {
      added := [];
      err := None;
      ghost var reg := db.reg;
      for n := 0 to |b.txs|
        invariant batch.ops == old(batch.ops) + added && OnlyRecords(added)
        invariant err.None? && Apply(db, added) == db.(reg := reg)
        invariant R.PersistTransactions(reg, b.height, b.txs[n..]) == R.PersistTransactions(db.reg, b.height, b.txs)
      {
        assert b.txs[n..][0] == b.txs[n] && b.txs[n..][1..] == b.txs[n + 1..];
        ghost var more;
        err, more := PersistRecords(batch, b.txs[n], b.height, reg);
        ApplyConcat(db, added, more);
        added := added + more;
        if err.Some? {
          return;
        }
        reg := Apply(db, added).reg;
      }
      assert b.txs[|b.txs|..] == [];
    }

    method RollbackRecords(batch: Batch, txn: Tx, ghost reg: R.Registry)
        returns (err: Option<StoreError>, ghost added: seq<BatchOp>)
      modifies batch
      ensures batch.ops == old(batch.ops) + added && OnlyRecords(added)
      ensures
        match R.RollbackTx(reg, txn)
        case Ok(reg') => err.None? && Apply(db.(reg := reg), added) == db.(reg := reg')
        case Err(e) => err == Some(e)
    {
      err := None;
      added := [DeleteTx(txn.hash)];
      batch.ops := batch.ops + [DeleteTx(txn.hash)];
      ApplySnoc(db.(reg := reg), [], added[0]);
      match txn.txType {
        case RegisterAsset(asset, _, _) =>
          var hash := asset.hash;
          if ELA_ASSET_ID == txn.hash {
            hash := txn.hash;
          }
          batch.ops := batch.ops + [DeleteAsset(hash)];
          ApplySnoc(db.(reg := reg), added, DeleteAsset(hash));
          added := added + [DeleteAsset(hash)];
        case RechargeToSideChain(None) =>
          err := Some(BadMainchainHash);
        case RechargeToSideChain(Some(hash)) =>
          batch.ops := batch.ops + [DeleteMainchain(hash)];
          ApplySnoc(db.(reg := reg), added, DeleteMainchain(hash));
          added := added + [DeleteMainchain(hash)];
        case _ =>
      }
    }

    method RollbackTransactions(batch: Batch, b: Block) returns (err: Option<StoreError>, ghost added: seq<BatchOp>)
      modifies batch
      ensures batch.ops == old(batch.ops) + added && OnlyRecords(added)
      ensures
        match R.RollbackTransactions(db.reg, b.txs)
        case Ok(reg) => err.None? && Apply(db, added) == db.(reg := reg)
        case Err(e) => err == Some(e)
    {
      added := [];
      err := None;
      ghost var reg := db.reg;
      for n := 0 to |b.txs|
        invariant batch.ops == old(batch.ops) + added && OnlyRecords(added)
        invariant err.None? && Apply(db, added) == db.(reg := reg)
        invariant R.RollbackTransactions(reg, b.txs[n..]) == R.RollbackTransactions(db.reg, b.txs)
      {
        assert b.txs[n..][0] == b.txs[n] && b.txs[n..][1..] == b.txs[n + 1..];
        ghost var more;
        err, more := RollbackRecords(batch, b.txs[n], reg);
        ApplyConcat(db, added, more);
        added := added + more;
        if err.Some? {
          return;
        }
        reg := Apply(db, added).reg;
      }
      assert b.txs[|b.txs|..] == [];
    }

    method Commit(batch: Batch)
      requires Encoded(batch.ops)
      modifies this
      ensures db == Apply(old(db), batch.ops) && raw == Write(old(raw), batch.ops)
      ensures C.Stores(old(raw), old(db).utxos) ==> C.Stores(raw, db.utxos)
    {
      if C.Stores(raw, db.utxos) {
        WriteStores(raw, db, batch.ops);
      }
      db, raw := Apply(db, batch.ops), Write(raw, batch.ops);
    }

    // One block: all functions fill one batch, which is written only if none fails.

    method FillPersist(batch: Batch, b: Block) returns (err: Option<StoreError>)
      requires NoEmptyList(db.utxos) && batch.ops == []
      modifies batch
      ensures
        match Persist(db, b)
        case Ok(db') => err.None? && Apply(db, batch.ops) == db' && Encoded(batch.ops)
        case Err(e) => err == Some(e)
    {
      ghost var utxoOps, recordOps, unspentOps;
      err, utxoOps := PersistUnspendUTXOs(batch, b);
      if err.Some? {
        return;
      }
      err, recordOps := PersistTransactions(batch, b);
      if err.Some? {
        return;
      }
      err, unspentOps := PersistUnspent(batch, b);
      if err.Some? {
        return;
      }
      assert batch.ops == utxoOps + recordOps + unspentOps;
      FilledPersist(db, b, utxoOps, recordOps, unspentOps);
    }

    method PersistBlock(b: Block) returns (err: Option<StoreError>)
      requires NoEmptyList(db.utxos)
      modifies this
      ensures
        match Persist(old(db), b)
        case Ok(db') => err.None? && db == db'
        case Err(e) => err == Some(e) && db == old(db) && raw == old(raw)
      ensures NoEmptyList(db.utxos) && (C.Stores(old(raw), old(db).utxos) ==> C.Stores(raw, db.utxos))
      ensures Valid(old(db)) && Fresh(old(db).reg.txs, b.txs) ==>
                Valid(db) && (err.None? <==> Acceptable(old(db), b))
    {
      var batch := new Batch();
      PersistVerdict(db, b);
      PersistKeepsNormal(db, b);
      err := FillPersist(batch, b);
      if err.None? {
        Commit(batch);
      }
    }

    method FillRollback(batch: Batch, b: Block) returns (err: Option<StoreError>)
      requires NoEmptyList(db.utxos) && batch.ops == []
      modifies batch
      ensures
        match Rollback(restored, db, b)
        case Ok(db') => err.None? && Apply(db, batch.ops) == db' && Encoded(batch.ops)
        case Err(e) => err == Some(e)
    {
      ghost var utxoOps, recordOps, unspentOps;
      RollbackErrors(restored, db, b);
      err, utxoOps := RollbackUnspendUTXOs(batch, b);
      if err.Some? {
        return;
      }
      err, recordOps := RollbackTransactions(batch, b);
      if err.Some? {
        return;
      }
      unspentOps := RollbackUnspent(batch, b);
      assert batch.ops == utxoOps + recordOps + unspentOps;
      FilledRollback(restored, db, b, utxoOps, recordOps, unspentOps);
    }

    method RollbackBlock(b: Block) returns (err: Option<StoreError>)
      requires NoEmptyList(db.utxos)
      modifies this
      ensures
        match Rollback(restored, old(db), b)
        case Ok(db') => err.None? && db == db'
        case Err(e) => err == Some(e) && db == old(db) && raw == old(raw)
      ensures NoEmptyList(db.utxos) && (C.Stores(old(raw), old(db).utxos) ==> C.Stores(raw, db.utxos))
      ensures forall before | Persisted(before, b, old(db)) ::
                err.None? && (SameDb(before, db) <==> Restorable(restored, before, b))
    {
      var batch := new Batch();
      RollbackVerdict(restored, db, b);
      RollbackKeepsNormal(restored, db, b);
      err := FillRollback(batch, b);
      if err.None? {
        Commit(batch);
      }
    }
  }
}
