/** Write batches: puts and deletes collected by the store's functions and
    applied together. */
module Batches {
  import opened Types
  import opened Bytes
  import opened Buckets
  import opened UtxoIndex
  import I = UnspentIndex
  import opened ChainDb
  import opened UtxoCodec

  /** For the UTXO index an operation carries the bytes it writes beside what
      they stand for. */
  datatype BatchOp =
    | PutUtxos(key: BucketKey, utxos: seq<Utxo>, rawKey: seq<byte>, data: seq<byte>)
    | DeleteUtxos(key: BucketKey, rawKey: seq<byte>)
    | PutUnspent(txid: Uint256, indexes: seq<uint16>)
    | DeleteUnspent(txid: Uint256)
    | PutTx(txid: Uint256, entry: TxEntry)
    | DeleteTx(txid: Uint256)
    | PutAsset(hash: Uint256, info: AssetInfo)
    | DeleteAsset(hash: Uint256)
    | PutMainchain(hash: Uint256)
    | DeleteMainchain(hash: Uint256)
  {
    predicate OnUtxos() {
      || (PutUtxos? && rawKey == EncodeKey(key) && data == EncodeList(utxos))
      || (DeleteUtxos? && rawKey == EncodeKey(key))
    }

    predicate OnUnspent() {
      PutUnspent? || DeleteUnspent?
    }

    predicate OnRecords() {
      !PutUtxos? && !DeleteUtxos? && !OnUnspent()
    }
  }

  ghost predicate OnlyUtxos(ops: seq<BatchOp>) {
    forall op | op in ops :: op.OnUtxos()
  }

  ghost predicate OnlyUnspent(ops: seq<BatchOp>) {
    forall op | op in ops :: op.OnUnspent()
  }

  ghost predicate OnlyRecords(ops: seq<BatchOp>) {
    forall op | op in ops :: op.OnRecords()
  }

  function ApplyOne(db: Db, op: BatchOp): Db {
    match op
    case PutUtxos(k, l, _, _) => db.(utxos := db.utxos[k := l])
    case DeleteUtxos(k, _) => db.(utxos := db.utxos - {k})
    case PutUnspent(t, l) => db.(unspent := db.unspent[t := l])
    case DeleteUnspent(t) => db.(unspent := db.unspent - {t})
    case PutTx(t, e) => db.(reg := db.reg.(txs := db.reg.txs[t := e]))
    case DeleteTx(t) => db.(reg := db.reg.(txs := db.reg.txs - {t}))
    case PutAsset(h, info) => db.(reg := db.reg.(assets := db.reg.assets[h := info]))
    case DeleteAsset(h) => db.(reg := db.reg.(assets := db.reg.assets - {h}))
    case PutMainchain(h) => db.(reg := db.reg.(mainchain := db.reg.mainchain + {h}))
    case DeleteMainchain(h) => db.(reg := db.reg.(mainchain := db.reg.mainchain - {h}))
  }

  function Apply(db: Db, ops: seq<BatchOp>): Db {
    if ops == [] then db else ApplyOne(Apply(db, ops[..|ops| - 1]), ops[|ops| - 1])
  }

  lemma ApplySnoc(db: Db, ops: seq<BatchOp>, op: BatchOp)
    ensures Apply(db, ops + [op]) == ApplyOne(Apply(db, ops), op)
  {
    assert (ops + [op])[..|ops|] == ops;
  }

  lemma {:induction false} ApplyConcat(db: Db, a: seq<BatchOp>, b: seq<BatchOp>)
    ensures Apply(db, a + b) == Apply(Apply(db, a), b)
    decreases |b|
  {
    if b == [] {
      assert a + b == a;
    } else {
      var front := b[..|b| - 1];
      assert a + b == (a + front) + [b[|b| - 1]];
      ApplySnoc(db, a + front, b[|b| - 1]);
      ApplyConcat(db, a, front);
    }
  }

  /** Operations on one part of the store act on that part alone. */
  lemma OneLocal(db: Db, db': Db, op: BatchOp)
    ensures op.OnUtxos() && db.utxos == db'.utxos ==> ApplyOne(db', op) == db'.(utxos := ApplyOne(db, op).utxos)
    ensures op.OnUnspent() && db.unspent == db'.unspent ==> ApplyOne(db', op) == db'.(unspent := ApplyOne(db, op).unspent)
    ensures op.OnRecords() && db.reg == db'.reg ==> ApplyOne(db', op) == db'.(reg := ApplyOne(db, op).reg)
  {
  }

  lemma {:induction false} UtxoOpsLocal(db: Db, db': Db, ops: seq<BatchOp>)
    requires db.utxos == db'.utxos && OnlyUtxos(ops)
    ensures Apply(db', ops) == db'.(utxos := Apply(db, ops).utxos)
    decreases |ops|
  {
    if ops != [] {
      var front, op := ops[..|ops| - 1], ops[|ops| - 1];
      assert op in ops;
      UtxoOpsLocal(db, db', front);
      OneLocal(Apply(db, front), Apply(db', front), op);
    }
  }

  lemma {:induction false} UnspentOpsLocal(db: Db, db': Db, ops: seq<BatchOp>)
    requires db.unspent == db'.unspent && OnlyUnspent(ops)
    ensures Apply(db', ops) == db'.(unspent := Apply(db, ops).unspent)
    decreases |ops|
  {
    if ops != [] {
      var front, op := ops[..|ops| - 1], ops[|ops| - 1];
      assert op in ops;
      UnspentOpsLocal(db, db', front);
      OneLocal(Apply(db, front), Apply(db', front), op);
    }
  }

  lemma {:induction false} RecordOpsLocal(db: Db, db': Db, ops: seq<BatchOp>)
    requires db.reg == db'.reg && OnlyRecords(ops)
    ensures Apply(db', ops) == db'.(reg := Apply(db, ops).reg)
    decreases |ops|
  {
    if ops != [] {
      var front, op := ops[..|ops| - 1], ops[|ops| - 1];
      assert op in ops;
      RecordOpsLocal(db, db', front);
      OneLocal(Apply(db, front), Apply(db', front), op);
    }
  }

  /** What three parts in some order do, one after the other. */
  lemma ThreeInOrder(db: Db, a: seq<BatchOp>, b: seq<BatchOp>, c: seq<BatchOp>)
    ensures Apply(db, a + b + c) == Apply(Apply(Apply(db, a), b), c)
  {
    ApplyConcat(db, a + b, c);
    ApplyConcat(db, a, b);
  }

  lemma LocalParts(db: Db, db': Db, utxoOps: seq<BatchOp>, recordOps: seq<BatchOp>, unspentOps: seq<BatchOp>)
    requires OnlyUtxos(utxoOps) && OnlyRecords(recordOps) && OnlyUnspent(unspentOps)
    ensures db'.utxos == db.utxos ==> Apply(db', utxoOps) == db'.(utxos := Apply(db, utxoOps).utxos)
    ensures db'.reg == db.reg ==> Apply(db', recordOps) == db'.(reg := Apply(db, recordOps).reg)
    ensures db'.unspent == db.unspent ==> Apply(db', unspentOps) == db'.(unspent := Apply(db, unspentOps).unspent)
  {
    if db'.utxos == db.utxos {
      UtxoOpsLocal(db, db', utxoOps);
    }
    if db'.reg == db.reg {
      RecordOpsLocal(db, db', recordOps);
    }
    if db'.unspent == db.unspent {
      UnspentOpsLocal(db, db', unspentOps);
    }
  }

  /** The three functions of one block may fill the batch in any order. */
  lemma {:induction false} PartsCommute(db: Db, utxoOps: seq<BatchOp>, recordOps: seq<BatchOp>, unspentOps: seq<BatchOp>)
    requires OnlyUtxos(utxoOps) && OnlyRecords(recordOps) && OnlyUnspent(unspentOps)
    ensures
      var db' := Db(Apply(db, utxoOps).utxos, Apply(db, unspentOps).unspent, Apply(db, recordOps).reg);
      && Apply(db, utxoOps + recordOps + unspentOps) == db'
      && Apply(db, utxoOps + unspentOps + recordOps) == db'
      && Apply(db, recordOps + utxoOps + unspentOps) == db'
      && Apply(db, recordOps + unspentOps + utxoOps) == db'
      && Apply(db, unspentOps + utxoOps + recordOps) == db'
      && Apply(db, unspentOps + recordOps + utxoOps) == db'
  {
    var u, r, i := utxoOps, recordOps, unspentOps;
    PartsInOrders(db, u, r, i);
    ThreeInOrder(db, u, r, i);
    ThreeInOrder(db, u, i, r);
    ThreeInOrder(db, r, u, i);
    ThreeInOrder(db, r, i, u);
    ThreeInOrder(db, i, u, r);
    ThreeInOrder(db, i, r, u);
  }

  lemma PartsInOrders(db: Db, u: seq<BatchOp>, r: seq<BatchOp>, i: seq<BatchOp>)
    requires OnlyUtxos(u) && OnlyRecords(r) && OnlyUnspent(i)
    ensures
      var db' := Db(Apply(db, u).utxos, Apply(db, i).unspent, Apply(db, r).reg);
      && Apply(Apply(Apply(db, u), r), i) == Apply(Apply(Apply(db, u), i), r) == db'
      && Apply(Apply(Apply(db, r), u), i) == Apply(Apply(Apply(db, r), i), u) == db'
      && Apply(Apply(Apply(db, i), u), r) == Apply(Apply(Apply(db, i), r), u) == db'
  {
    LocalParts(db, db, u, r, i);
    var du, dr, di := Apply(db, u), Apply(db, r), Apply(db, i);
    LocalParts(db, du, u, r, i);
    LocalParts(db, dr, u, r, i);
    LocalParts(db, di, u, r, i);
    LocalParts(db, Apply(du, r), u, r, i);
    LocalParts(db, Apply(du, i), u, r, i);
    LocalParts(db, Apply(dr, i), u, r, i);
  }

  /** What one block's batch does, from what its three parts do. */
  lemma CommitParts(db: Db, utxoOps: seq<BatchOp>, recordOps: seq<BatchOp>, unspentOps: seq<BatchOp>, db': Db)
    requires OnlyUtxos(utxoOps) && Apply(db, utxoOps) == db.(utxos := db'.utxos)
    requires OnlyRecords(recordOps) && Apply(db, recordOps) == db.(reg := db'.reg)
    requires OnlyUnspent(unspentOps) && Apply(db, unspentOps) == db.(unspent := db'.unspent)
    ensures Apply(db, utxoOps + recordOps + unspentOps) == db'
  {
    PartsCommute(db, utxoOps, recordOps, unspentOps);
  }

  /** The lists of a cache written so far. */
  function Part<K, E>(cache: map<K, seq<E>>, done: set<K>): map<K, seq<E>> {
    map k | k in cache && k in done :: cache[k]
  }

  lemma FlushStep<K, E>(store: map<K, seq<E>>, cache: map<K, seq<E>>, done: set<K>, k: K)
    requires k in cache
    ensures
      var before := Flush(store, Part(cache, done));
      Flush(store, Part(cache, done + {k})) == if cache[k] == [] then before - {k} else before[k := cache[k]]
  {
  }

  /** The operation that writes one list: an empty one is deleted. */
  function WriteOf(k: BucketKey, l: seq<Utxo>): (op: BatchOp)
    ensures op.OnUtxos()
  {
    if l == [] then DeleteUtxos(k, EncodeKey(k)) else PutUtxos(k, l, EncodeKey(k), EncodeList(l))
  }

  lemma WriteOfApplied(db: Db, k: BucketKey, l: seq<Utxo>)
    ensures ApplyOne(db, WriteOf(k, l)) == db.(utxos := if l == [] then db.utxos - {k} else db.utxos[k := l])
  {
  }

  lemma FlushOneUtxos(db: Db, cache: UtxoLists, ops: seq<BatchOp>, done: set<BucketKey>, k: BucketKey, op: BatchOp)
    requires k in cache && Apply(db, ops) == db.(utxos := Flush(db.utxos, Part(cache, done)))
    requires
      var before := Apply(db, ops);
      ApplyOne(before, op) == before.(utxos := if cache[k] == [] then before.utxos - {k} else before.utxos[k := cache[k]])
    ensures Apply(db, ops + [op]) == db.(utxos := Flush(db.utxos, Part(cache, done + {k})))
  {
    FlushStep(db.utxos, cache, done, k);
    ApplySnoc(db, ops, op);
  }

  lemma FlushUtxosStep(db: Db, cache: UtxoLists, ops: seq<BatchOp>, done: set<BucketKey>, k: BucketKey, op: BatchOp)
    requires k in cache && Apply(db, ops) == db.(utxos := Flush(db.utxos, Part(cache, done)))
    requires op == WriteOf(k, cache[k])
    ensures Apply(db, ops + [op]) == db.(utxos := Flush(db.utxos, Part(cache, done + {k})))
  {
    var l, before := cache[k], Apply(db, ops);
    WriteOfApplied(before, k, l);
    FlushOneUtxos(db, cache, ops, done, k, op);
  }

  lemma FlushUnspentStep(db: Db, cache: I.IndexLists, ops: seq<BatchOp>, done: set<Uint256>, k: Uint256)
    requires k in cache && Apply(db, ops) == db.(unspent := Flush(db.unspent, Part(cache, done)))
    ensures
      var op := if cache[k] == [] then DeleteUnspent(k) else PutUnspent(k, cache[k]);
      Apply(db, ops + [op]) == db.(unspent := Flush(db.unspent, Part(cache, done + {k})))
  {
    FlushStep(db.unspent, cache, done, k);
    ApplySnoc(db, ops, if cache[k] == [] then DeleteUnspent(k) else PutUnspent(k, cache[k]));
  }

  // The bytes of the UTXO index

  /** What an operation does to the stored bytes. The other parts have other
      prefixes and their bytes are not kept. */
  function WriteOne(raw: map<seq<byte>, seq<byte>>, op: BatchOp): map<seq<byte>, seq<byte>> {
    match op
    case PutUtxos(_, _, rawKey, data) => raw[rawKey := data]
    case DeleteUtxos(_, rawKey) => raw - {rawKey}
    case _ => raw
  }

  function Write(raw: map<seq<byte>, seq<byte>>, ops: seq<BatchOp>): map<seq<byte>, seq<byte>> {
    if ops == [] then raw else WriteOne(Write(raw, ops[..|ops| - 1]), ops[|ops| - 1])
  }

  /** Every operation writes the bytes of what it stands for. */
  ghost predicate Encoded(ops: seq<BatchOp>) {
    forall op | op in ops :: op.OnUtxos() || op.OnUnspent() || op.OnRecords()
  }

  lemma WriteOneStores(raw: map<seq<byte>, seq<byte>>, db: Db, op: BatchOp)
    requires Stores(raw, db.utxos) && (op.OnUtxos() || op.OnUnspent() || op.OnRecords())
    ensures Stores(WriteOne(raw, op), ApplyOne(db, op).utxos)
  {
    match op {
      case PutUtxos(k, l, _, _) => PutStores(raw, db.utxos, k, l);
      case DeleteUtxos(k, _) => DeleteStores(raw, db.utxos, k);
      case _ =>
    }
  }

  /** Writing a batch keeps the stored bytes those of the lists. */
  lemma {:induction false} WriteStores(raw: map<seq<byte>, seq<byte>>, db: Db, ops: seq<BatchOp>)
    requires Stores(raw, db.utxos) && Encoded(ops)
    ensures Stores(Write(raw, ops), Apply(db, ops).utxos)
    decreases |ops|
  {
    if ops != [] {
      var front, op := ops[..|ops| - 1], ops[|ops| - 1];
      WriteStores(raw, db, front);
      assert op in ops;
      WriteOneStores(Write(raw, front), Apply(db, front), op);
    }
  }
}
