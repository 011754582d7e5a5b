/** Transactions, registered assets and main chain hashes: the part of the store
    that moves along with the two unspent indexes. */
module Registry {
  import opened Bytes
  import opened Types
  import opened Ledger

  datatype Registry = Registry(txs: Txs, assets: map<Uint256, AssetInfo>, mainchain: set<Uint256>)

  function PersistTx(r: Registry, height: uint32, tx: Tx): Result<Registry> {
    var stored := r.(txs := r.txs[tx.hash := TxEntry(tx, height)]);
    match tx.txType
    case RegisterAsset(asset, _, _) =>
      if asset.name == "ELA" then Err(SystemAssetName)
      else Ok(stored.(assets := stored.assets[asset.hash := AssetInfo(asset, height)]))
    case RechargeToSideChain(None) => Err(BadMainchainHash)
    case RechargeToSideChain(Some(hash)) => Ok(stored.(mainchain := stored.mainchain + {hash}))
    case _ => Ok(stored)
  }

  function PersistTransactions(r: Registry, height: uint32, s: seq<Tx>): Result<Registry>
    decreases s
  {
    if s == [] then Ok(r)
    else
      var r' :- PersistTx(r, height, s[0]);
      PersistTransactions(r', height, s[1..])
  }

  function RollbackTx(r: Registry, tx: Tx): Result<Registry> {
    var deleted := r.(txs := r.txs - {tx.hash});
    match tx.txType
    case RegisterAsset(asset, _, _) =>
      Ok(deleted.(assets := deleted.assets - {if tx.hash == ELA_ASSET_ID then tx.hash else asset.hash}))
    case RechargeToSideChain(None) => Err(BadMainchainHash)
    case RechargeToSideChain(Some(hash)) => Ok(deleted.(mainchain := deleted.mainchain - {hash}))
    case _ => Ok(deleted)
  }

  function RollbackTransactions(r: Registry, s: seq<Tx>): Result<Registry>
    decreases s
  {
    if s == [] then Ok(r)
    else
      var r' :- RollbackTx(r, s[0]);
      RollbackTransactions(r', s[1..])
  }

  /** A transaction whose registration or recharge the store accepts. */
  predicate Recordable(tx: Tx) {
    && (tx.txType.RegisterAsset? ==> tx.txType.asset.name != "ELA")
    && (tx.txType.RechargeToSideChain? ==> tx.txType.mainHash.Some?)
  }

  ghost function AssetHashes(s: seq<Tx>): set<Uint256> {
    set n | 0 <= n < |s| && s[n].txType.RegisterAsset? :: s[n].txType.asset.hash
  }

  ghost function MainHashes(s: seq<Tx>): set<Uint256> {
    set n | 0 <= n < |s| && s[n].txType.RechargeToSideChain? && s[n].txType.mainHash.Some? ::
      s[n].txType.mainHash.value
  }

  lemma HashesTail(s: seq<Tx>)
    requires s != []
    ensures AssetHashes(s) == AssetHashes([s[0]]) + AssetHashes(s[1..])
    ensures MainHashes(s) == MainHashes([s[0]]) + MainHashes(s[1..])
  {
    assert forall n | 0 <= n < |s| - 1 :: s[1..][n] == s[n + 1];
    forall h | h in AssetHashes(s) ensures h in AssetHashes([s[0]]) + AssetHashes(s[1..]) {
      var n :| 0 <= n < |s| && s[n].txType.RegisterAsset? && s[n].txType.asset.hash == h;
      assert if n == 0 then [s[0]][0] == s[n] else s[1..][n - 1] == s[n];
    }
    forall h | h in MainHashes(s) ensures h in MainHashes([s[0]]) + MainHashes(s[1..]) {
      var n :| 0 <= n < |s| && s[n].txType.RechargeToSideChain? && s[n].txType.mainHash.Some? && s[n].txType.mainHash.value == h;
      assert if n == 0 then [s[0]][0] == s[n] else s[1..][n - 1] == s[n];
    }
    assert [s[0]][0] == s[0];
  }

  lemma PersistTxExact(r: Registry, height: uint32, tx: Tx)
    ensures PersistTx(r, height, tx).Ok? <==> Recordable(tx)
    ensures
      PersistTx(r, height, tx).Ok? ==>
        var r' := PersistTx(r, height, tx).value;
        && r'.txs == r.txs[tx.hash := TxEntry(tx, height)]
        && r'.assets.Keys == r.assets.Keys + AssetHashes([tx])
        && (forall h | h in r.assets && h !in AssetHashes([tx]) :: r'.assets[h] == r.assets[h])
        && r'.mainchain == r.mainchain + MainHashes([tx])
  {
    assert [tx][0] == tx;
  }

  lemma RecordableTail(s: seq<Tx>)
    requires s != []
    ensures (forall n | 0 <= n < |s| :: Recordable(s[n])) <==>
            Recordable(s[0]) && forall n | 0 <= n < |s[1..]| :: Recordable(s[1..][n])
  {
    assert forall n | 0 <= n < |s| - 1 :: s[1..][n] == s[n + 1];
    assert forall n | 1 <= n < |s| :: s[n] == s[1..][n - 1];
  }

  /** Persisting succeeds exactly on recordable transactions, adds all the keys
      and leaves every other key alone. */
  lemma {:induction false} PersistExact(r: Registry, height: uint32, s: seq<Tx>)
    ensures PersistTransactions(r, height, s).Ok? <==> forall n | 0 <= n < |s| :: Recordable(s[n])
    ensures
      PersistTransactions(r, height, s).Ok? ==>
        var r' := PersistTransactions(r, height, s).value;
        && r'.txs == Store(r.txs, height, s)
        && r'.assets.Keys == r.assets.Keys + AssetHashes(s)
        && (forall h | h in r.assets && h !in AssetHashes(s) :: r'.assets[h] == r.assets[h])
        && r'.mainchain == r.mainchain + MainHashes(s)
    decreases s
  {
    if s != [] {
      HashesTail(s);
      RecordableTail(s);
      PersistTxExact(r, height, s[0]);
      if PersistTx(r, height, s[0]).Ok? {
        PersistExact(PersistTx(r, height, s[0]).value, height, s[1..]);
      }
    }
  }

  /** The n-th transaction is the block's last registration of its asset hash. */
  ghost predicate LastRegistration(s: seq<Tx>, n: nat) {
    && n < |s| && s[n].txType.RegisterAsset?
    && forall m | n < m < |s| && s[m].txType.RegisterAsset? :: s[m].txType.asset.hash != s[n].txType.asset.hash
  }

  lemma LastRegistrationTail(s: seq<Tx>, n: nat)
    requires n > 0 && LastRegistration(s, n)
    ensures LastRegistration(s[1..], n - 1) && s[1..][n - 1] == s[n]
  {
    assert forall m | 0 <= m < |s| - 1 :: s[1..][m] == s[m + 1];
  }

  /** The record under an asset hash is the asset of its last registration in the
      block, unchanged, at the block's height. */
  lemma {:induction false} RecordedAsRegistered(r: Registry, height: uint32, s: seq<Tx>, n: nat)
    requires PersistTransactions(r, height, s).Ok? && LastRegistration(s, n)
    ensures
      var (h, assets) := (s[n].txType.asset.hash, PersistTransactions(r, height, s).value.assets);
      h in assets && assets[h].asset == s[n].txType.asset && assets[h].height == height
    decreases s
  {
    var first := PersistTx(r, height, s[0]).value;
    if n > 0 {
      LastRegistrationTail(s, n);
      RecordedAsRegistered(first, height, s[1..], n - 1);
    } else {
      PersistExact(first, height, s[1..]);
      assert forall m | 0 <= m < |s| - 1 :: s[1..][m] == s[m + 1];
      assert s[0].txType.asset.hash !in AssetHashes(s[1..]);
    }
  }

  lemma {:induction false} LastOf(s: seq<Tx>, h: Uint256) returns (n: nat)
    requires h in AssetHashes(s)
    ensures LastRegistration(s, n) && s[n].txType.asset.hash == h
    decreases |s|
  {
    n := |s| - 1;
    while !(s[n].txType.RegisterAsset? && s[n].txType.asset.hash == h)
      invariant n < |s|
      decreases n
      invariant forall m | n < m < |s| && s[m].txType.RegisterAsset? :: s[m].txType.asset.hash != h
      invariant exists m :: 0 <= m <= n && s[m].txType.RegisterAsset? && s[m].txType.asset.hash == h
    {
      n := n - 1;
    }
  }

  /** Which blocks cannot be recorded: those that register an asset named ELA or
      have a recharge without a readable main chain hash. */
  lemma UnrecordableExact(r: Registry, height: uint32, s: seq<Tx>)
    ensures PersistTransactions(r, height, s).Err? <==>
              exists tx | tx in s ::
                || (tx.txType.RegisterAsset? && tx.txType.asset.name == "ELA")
                || (tx.txType.RechargeToSideChain? && tx.txType.mainHash.None?)
  {
    PersistExact(r, height, s);
    if PersistTransactions(r, height, s).Err? {
      var n :| 0 <= n < |s| && !Recordable(s[n]);
      assert s[n] in s;
    }
  }

  /** The system asset's own transaction gives up the record under its own hash. */
  lemma SystemRecordDeleted(r: Registry, tx: Tx)
    requires tx.txType.RegisterAsset? && tx.hash == ELA_ASSET_ID
    ensures RollbackTx(r, tx).Ok?
    ensures
      var r' := RollbackTx(r, tx).value;
      ELA_ASSET_ID !in r'.txs && r'.assets == r.assets - {ELA_ASSET_ID} && r'.mainchain == r.mainchain
  {
  }

  lemma RollbackTxExact(r: Registry, tx: Tx)
    requires Recordable(tx) && tx.hash != ELA_ASSET_ID
    ensures RollbackTx(r, tx) ==
              Ok(Registry(r.txs - {tx.hash}, r.assets - AssetHashes([tx]), r.mainchain - MainHashes([tx])))
  {
    assert [tx][0] == tx;
    if tx.txType.RegisterAsset? {
      assert AssetHashes([tx]) == {tx.txType.asset.hash};
    } else {
      assert r.assets - AssetHashes([tx]) == r.assets;
    }
    if tx.txType.RechargeToSideChain? {
      assert MainHashes([tx]) == {tx.txType.mainHash.value};
    } else {
      assert r.mainchain - MainHashes([tx]) == r.mainchain;
    }
  }

  lemma MapMinusTwice<K, V>(m: map<K, V>, a: set<K>, b: set<K>)
    ensures m - a - b == m - (a + b)
  {
  }

  /** Rolling back deletes all the block's keys, whatever was there before. */
  lemma {:induction false} RollbackExact(r: Registry, s: seq<Tx>)
    requires forall n | 0 <= n < |s| :: Recordable(s[n]) && s[n].hash != ELA_ASSET_ID
    ensures RollbackTransactions(r, s) ==
              Ok(Registry(Unstore(r.txs, s), r.assets - AssetHashes(s), r.mainchain - MainHashes(s)))
    decreases s
  {
    if s == [] {
      assert r.assets - AssetHashes(s) == r.assets && r.mainchain - MainHashes(s) == r.mainchain;
    } else {
      HashesTail(s);
      assert forall n | 0 <= n < |s| - 1 :: s[1..][n] == s[n + 1];
      RollbackTxExact(r, s[0]);
      RollbackExact(RollbackTx(r, s[0]).value, s[1..]);
      MapMinusTwice(r.assets, AssetHashes([s[0]]), AssetHashes(s[1..]));
      assert r.mainchain - MainHashes([s[0]]) - MainHashes(s[1..]) == r.mainchain - MainHashes(s);
    }
  }

  /** No asset or main chain hash of the block is recorded yet. */
  ghost predicate NewRecords(r: Registry, s: seq<Tx>) {
    r.assets.Keys !! AssetHashes(s) && r.mainchain !! MainHashes(s)
  }

  /** Rolling back what was just persisted gives the old registry back exactly
      when no asset or main chain hash of the block was already recorded. */
  lemma RecordsRestoredExact(r: Registry, height: uint32, s: seq<Tx>)
    requires Fresh(r.txs, s) && ELA_ASSET_ID in r.txs
    requires PersistTransactions(r, height, s).Ok?
    ensures
      var back := RollbackTransactions(PersistTransactions(r, height, s).value, s);
      && back.Ok?
      && back.value.txs == r.txs
      && (back.value == r <==> NewRecords(r, s))
  {
    PersistExact(r, height, s);
    var r' := PersistTransactions(r, height, s).value;
    RollbackExact(r', s);
    UnstoreUndoesStore(r.txs, height, s);
    assert r'.assets - AssetHashes(s) == r.assets - AssetHashes(s);
    if !(r.assets.Keys !! AssetHashes(s)) {
      var h :| h in r.assets && h in AssetHashes(s);
      assert h !in r'.assets - AssetHashes(s);
    }
  }
}
