/** The node as a whole: a store driven by a run, and what the queries then answer. */
module Node {
  import opened Bytes
  import opened Types
  import opened Buckets
  import opened Ledger
  import opened UtxoIndex
  import opened Streams
  import opened UtxoCodec
  import opened ChainDb
  import opened Runs
  import opened ChainStore
  import O = OutputCodec
  import S = Service

  // How long a list can get

  const TWO_48: int := 0x1_0000_0000_0000

  lemma {:induction false} DistinctSize<T>(s: seq<T>)
    requires NoDuplicates(s)
    ensures |AsSet(s)| == |s|
    decreases s
  {
    if s != [] {
      NoDuplicatesTail(s);
      DistinctSize(s[1..]);
    }
  }

  lemma SubsetSize<T>(a: set<T>, b: set<T>)
    requires a <= b
    ensures |a| <= |b|
  {
    assert b == a + (b - a);
  }

  lemma {:induction false} OutpointsSize(tx: Tx, i: nat)
    requires i <= |tx.outputs| <= 0x1_0000
    ensures |OutpointsFrom(tx, i)| == |tx.outputs| - i
    decreases |tx.outputs| - i
  {
    if i == |tx.outputs| {
      assert OutpointsFrom(tx, i) == {};
    } else {
      OutpointsFromStep(tx, i);
      OutpointsSize(tx, i + 1);
    }
  }

  /** A transaction has at most 65536 outputs. */
  lemma {:induction false} OutputsSize(txs: Txs)
    requires Keyed(txs)
    ensures |AllOutputs(txs)| <= 0x1_0000 * |txs|
    decreases |txs|
  {
    if |txs| == 0 {
      assert AllOutputs(txs) == {};
    } else {
      var t :| t in txs;
      var rest, own := txs - {t}, OutpointsFrom(txs[t].tx, 0);
      assert rest.Keys == txs.Keys - {t};
      OutputsSize(rest);
      OutpointsSize(txs[t].tx, 0);
      assert AllOutputs(txs) == AllOutputs(rest) + own;
    }
  }

  /** The entries of a list belong to different unspent outpoints. */
  lemma ListSize(db: Db, k: BucketKey)
    requires Valid(db)
    ensures |Bucket(db.utxos, k)| <= 0x1_0000 * |db.reg.txs|
  {
    var txs, l := db.reg.txs, Bucket(db.utxos, k);
    forall u | u in l ensures u in S.UtxosOf(txs, Unspent(txs)) {
      S.BucketMember(db, k, u);
    }
    var listed := S.NameAll(txs, l, Unspent(txs));
    S.BucketNoDuplicates(db, k);
    assert NoDuplicates(listed);
    DistinctSize(listed);
    SubsetSize(AsSet(listed), AllOutputs(txs));
    OutputsSize(txs);
  }

  // What the queries need

  /** Every output of the chain is one that can be read from bytes. */
  ghost predicate Receivable(chain: seq<Block>) {
    forall n, i, j | 0 <= n < |chain| && 0 <= i < |chain[n].txs| && 0 <= j < |chain[n].txs[i].outputs| ::
      O.Encodable(chain[n].txs[i].outputs[j])
  }

  ghost predicate OutputsFit(txs: Txs) {
    forall o | IsOutput(txs, o) :: |ValueBytes(OutputOf(txs, o))| <= MAX_TOKEN_VALUE_DATA_SIZE
  }

  lemma FrontReceivable(chain: seq<Block>)
    requires chain != [] && Receivable(chain)
    ensures Receivable(Front(chain))
    ensures forall i, j | 0 <= i < |Last(chain).txs| && 0 <= j < |Last(chain).txs[i].outputs| ::
              O.Encodable(Last(chain).txs[i].outputs[j])
  {
    assert forall n | 0 <= n < |chain| - 1 :: Front(chain)[n] == chain[n];
    assert Last(chain) == chain[|chain| - 1];
  }

  lemma BlockFits(txs: Txs, height: uint32, s: seq<Tx>)
    requires Fresh(txs, s) && OutputsFit(txs)
    requires forall i, j | 0 <= i < |s| && 0 <= j < |s[i].outputs| :: O.Encodable(s[i].outputs[j])
    ensures OutputsFit(Store(txs, height, s))
  {
    var all := Store(txs, height, s);
    StoreContents(txs, height, s);
    forall o | IsOutput(all, o) ensures |ValueBytes(OutputOf(all, o))| <= MAX_TOKEN_VALUE_DATA_SIZE {
      if o.txid in txs {
        assert IsOutput(txs, o);
      } else {
        var i :| 0 <= i < |s| && s[i].hash == o.txid;
        O.EncodableFits(s[i].outputs[o.index]);
      }
    }
  }

  lemma {:induction false} ReceivedFit(genesis: Tx, chain: seq<Block>)
    requires IsGenesis(genesis) && ChainOk(genesis, chain) && Receivable(chain)
    ensures OutputsFit(Replay(genesis, chain).reg.txs)
    decreases |chain|
  {
    if chain != [] {
      var before, b := Replay(genesis, Front(chain)), Last(chain);
      FrontReceivable(chain);
      ReceivedFit(genesis, Front(chain));
      ReplayValid(genesis, Front(chain));
      ChainDb.PersistExact(before, b);
      BlockFits(before.reg.txs, b.height, b.txs);
    }
  }

  lemma ListFits(db: Db, k: BucketKey)
    requires Valid(db) && OutputsFit(db.reg.txs) && |db.reg.txs| < TWO_48
    ensures |Bucket(db.utxos, k)| < TWO_64 && AllFit(Bucket(db.utxos, k))
  {
    var l := Bucket(db.utxos, k);
    ListSize(db, k);
    forall i | 0 <= i < |l| ensures |l[i].value| <= MAX_TOKEN_VALUE_DATA_SIZE {
      S.BucketMember(db, k, l[i]);
    }
  }

  /** On a chain that can have been received everything stored can be read back, and
      heights are as the listing needs, whether or not its transactions pass. */
  lemma QueriesReady(genesis: Tx, s: System)
    requires IsGenesis(genesis) && OnChain(genesis, s)
    requires Receivable(s.chain) && |s.db.reg.txs| < TWO_48
    ensures Storable(s.db.utxos) && S.HeightsKnown(s.db.reg.txs, TipHeight(s.chain))
  {
    ReceivedFit(genesis, s.chain);
    forall k | k in s.db.utxos ensures |s.db.utxos[k]| < TWO_64 && AllFit(s.db.utxos[k]) {
      ListFits(s.db, k);
    }
    HeightsBelowTip(genesis, s.chain);
  }

  // The store after a run

  /** The store is in the state of the run, and its bytes are those of its lists. */
  ghost predicate Follows(store: TokenChainStore, genesis: Tx, steps: seq<Step>)
    requires IsGenesis(genesis)
    reads store
  {
    && store.db == Run(store.restored, genesis, steps).db
    && Stores(store.raw, store.db.utxos)
    && NoEmptyList(store.db.utxos)
  }

  method Start(genesis: Tx, restored: RestoredHash) returns (store: TokenChainStore)
    requires IsGenesis(genesis)
    ensures fresh(store) && store.restored == restored && Follows(store, genesis, [])
  {
    store := new TokenChainStore(genesis, restored);
  }

  /** A step of the run; `tip` is the last block, which an undo rolls back. */
  method Advance(store: TokenChainStore, genesis: Tx, ghost steps: seq<Step>, step: Step, tip: Option<Block>)
    requires IsGenesis(genesis) && Follows(store, genesis, steps)
    requires
      var chain := Run(store.restored, genesis, steps).chain;
      tip == if chain == [] then None else Some(Last(chain))
    modifies store
    ensures Follows(store, genesis, steps + [step])
  {
    ghost var s := Run(store.restored, genesis, steps);
    assert Front(steps + [step]) == steps && Last(steps + [step]) == step;
    var err;
    match step {
      case Extend(b) =>
        err := store.PersistBlock(b);
      case Undo =>
        if tip.Some? {
          err := store.RollbackBlock(tip.value);
        }
    }
  }

  /** A legal run on blocks that can be received, on which the indexes stay exact,
      with a number of transactions that a disk can hold. */
  ghost predicate Served(mode: RestoredHash, genesis: Tx, steps: seq<Step>)
    requires IsGenesis(genesis)
  {
    && Legal(mode, genesis, steps)
    && (mode.Corrected? || UndoesNoSpend(mode, genesis, steps))
    && Receivable(Run(mode, genesis, steps).chain)
    && |Run(mode, genesis, steps).db.reg.txs| < TWO_48
  }

  lemma ServedReady(mode: RestoredHash, genesis: Tx, steps: seq<Step>)
    requires IsGenesis(genesis) && Served(mode, genesis, steps)
    ensures
      var s := Run(mode, genesis, steps);
      Valid(s.db) && Storable(s.db.utxos) && S.HeightsKnown(s.db.reg.txs, TipHeight(s.chain))
  {
    ExactByStep(mode, genesis, steps);
    QueriesReady(genesis, Run(mode, genesis, steps));
  }

  /** After every such run, reading one bucket from the bytes gives exactly the list
      that persisting or rolling back the next block loads. */
  method LoadAfterRun(store: TokenChainStore, ghost genesis: Tx, ghost steps: seq<Step>, key: BucketKey)
      returns (unspents: Option<seq<Utxo>>)
    requires IsGenesis(genesis) && Follows(store, genesis, steps) && Served(store.restored, genesis, steps)
    ensures unspents == if key in store.db.utxos then Some(store.db.utxos[key]) else None
  {
    ServedReady(store.restored, genesis, steps);
    StoredReadable(store.raw, store.db.utxos);
    unspents := GetUnspentElementFromProgramHash(store.raw, key, store.db.utxos.Keys);
  }

  /** After every such run, what an address received is the ledger's answer. */
  method ReceivedAfterRun(store: TokenChainStore, ghost genesis: Tx, ghost steps: seq<Step>, programHash: Uint168)
      returns (received: Option<S.Received>)
    requires IsGenesis(genesis) && Follows(store, genesis, steps)
    requires Served(store.restored, genesis, steps)
    ensures received.Some? && S.LedgerReceived(store.db.reg.txs, programHash, received.value)
  {
    ServedReady(store.restored, genesis, steps);
    StoredReadable(store.raw, store.db.utxos);
    ghost var keys;
    received, keys := S.GetReceivedByAddress(store.raw, programHash, store.db.utxos.Keys);
    S.ReportIsLedger(store.db, programHash, keys, received);
  }

  /** And so is the listing of the unspent outputs of some addresses. */
  method UnspentAfterRun(store: TokenChainStore, ghost genesis: Tx, ghost steps: seq<Step>, bestHeight: uint32,
                         elaText: int64 -> string, addresses: seq<Uint168>)
      returns (results: Option<seq<S.UtxoInfo>>, ghost listed: seq<Outpoint>)
    requires IsGenesis(genesis) && Follows(store, genesis, steps)
    requires Served(store.restored, genesis, steps)
    requires bestHeight == TipHeight(Run(store.restored, genesis, steps).chain)
    ensures results.Some? && S.HeightsKnown(store.db.reg.txs, bestHeight)
    ensures S.LedgerListing(store.db.reg.txs, bestHeight, elaText, addresses, results.value, listed)
  {
    ServedReady(store.restored, genesis, steps);
    StoredReadable(store.raw, store.db.utxos);
    forall n | 0 <= n < |addresses| ensures S.AddressListable(store.raw, store.db.utxos.Keys, store.db.reg.txs, addresses[n]) {
      S.AllListable(store.raw, store.db, addresses[n]);
    }
    ghost var parts;
    results, parts := S.ListUnspent(store.raw, store.db.reg.txs, bestHeight, elaText, addresses, store.db.utxos.Keys);
    listed := S.ListingIsLedger(store.db, bestHeight, elaText, addresses, parts);
  }
}
