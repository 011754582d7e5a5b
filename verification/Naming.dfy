/** When a block's registrations are new to the store, and what its records are. */
module Naming {
  import opened Bytes
  import opened Types
  import opened Ledger
  import opened UtxoIndex
  import opened R = Registry
  import opened ChainDb
  import opened RoundTrip
  import opened Runs
  import V = Validator

  /** A hash determines its asset's name. */
  ghost predicate Named(names: Uint256 -> string, s: seq<Tx>) {
    forall i | 0 <= i < |s| && s[i].txType.RegisterAsset? :: s[i].txType.asset.name == names(s[i].txType.asset.hash)
  }

  ghost predicate ChainNamed(names: Uint256 -> string, genesis: Tx, chain: seq<Block>)
    requires IsGenesis(genesis)
  {
    && names(ELA_ASSET_ID) == genesis.txType.asset.name
    && forall n | 0 <= n < |chain| :: Named(names, chain[n].txs)
  }

  ghost predicate RecordsNamed(names: Uint256 -> string, assets: map<Uint256, AssetInfo>) {
    forall h | h in assets :: assets[h].asset.name == names(h)
  }

  lemma {:induction false} PersistKeepsNames(names: Uint256 -> string, r: Registry, height: uint32, s: seq<Tx>)
    requires RecordsNamed(names, r.assets) && Named(names, s) && PersistTransactions(r, height, s).Ok?
    ensures RecordsNamed(names, PersistTransactions(r, height, s).value.assets)
    decreases s
  {
    if s != [] {
      assert forall i | 0 <= i < |s| - 1 :: s[1..][i] == s[i + 1];
      PersistKeepsNames(names, R.PersistTx(r, height, s[0]).value, height, s[1..]);
    }
  }

  lemma {:induction false} ReplayNamed(names: Uint256 -> string, genesis: Tx, chain: seq<Block>)
    requires IsGenesis(genesis) && ChainOk(genesis, chain) && ChainNamed(names, genesis, chain)
    ensures RecordsNamed(names, Replay(genesis, chain).reg.assets)
    decreases |chain|
  {
    if chain != [] {
      ReplayNamed(names, genesis, Front(chain));
      PersistKeepsNames(names, Replay(genesis, Front(chain)).reg, Last(chain).height, Last(chain).txs);
    }
  }

  /** Where a hash determines its asset's name, the fresh-name rule makes every
      registration new, so that a block is restorable exactly when its main chain
      hashes are new and, as written, it spends nothing. */
  lemma {:induction false} RegistrationsAreNew(names: Uint256 -> string, mode: RestoredHash, genesis: Tx, chain: seq<Block>, b: Block)
    requires IsGenesis(genesis) && ChainOk(genesis, chain)
    requires ChainNamed(names, genesis, chain) && Named(names, b.txs)
    requires forall i | 0 <= i < |b.txs| && b.txs[i].txType.RegisterAsset? ::
               V.RegistrationOk(Replay(genesis, chain).reg.assets, b.txs[i])
    ensures Replay(genesis, chain).reg.assets.Keys !! AssetHashes(b.txs)
    ensures Restorable(mode, Replay(genesis, chain), b) <==>
              Replay(genesis, chain).reg.mainchain !! MainHashes(b.txs) && (mode.Corrected? || BlockSpends(b.txs) == [])
  {
    ReplayNamed(names, genesis, chain);
  }

  // What the records are

  /** The record `info` under `h` is what a stored registration asks for. */
  ghost predicate FromRegistration(txs: Txs, h: Uint256, info: AssetInfo) {
    exists t | t in txs ::
      && txs[t].tx.txType.RegisterAsset? && txs[t].tx.txType.asset.hash == h
      && info.asset == txs[t].tx.txType.asset && info.height == txs[t].height
  }

  ghost predicate RecordsRegistered(genesis: Tx, reg: Registry)
    requires IsGenesis(genesis)
  {
    forall h | h in reg.assets ::
      || FromRegistration(reg.txs, h, reg.assets[h])
      || (h == ELA_ASSET_ID && reg.assets[h].asset == genesis.txType.asset && reg.assets[h].height == 0)
  }

  lemma BlockRecorded(r: Registry, height: uint32, s: seq<Tx>, h: Uint256)
    requires Fresh(r.txs, s) && PersistTransactions(r, height, s).Ok? && h in AssetHashes(s)
    ensures
      var r' := PersistTransactions(r, height, s).value;
      h in r'.assets && FromRegistration(r'.txs, h, r'.assets[h])
  {
    var n := LastOf(s, h);
    RecordedAsRegistered(r, height, s, n);
    R.PersistExact(r, height, s);
    StoreContents(r.txs, height, s);
    var txs := Store(r.txs, height, s);
    assert s[n].hash in txs && txs[s[n].hash] == TxEntry(s[n], height);
  }

  lemma RecordsStay(genesis: Tx, r: Registry, height: uint32, s: seq<Tx>)
    requires IsGenesis(genesis) && Fresh(r.txs, s) && PersistTransactions(r, height, s).Ok? && RecordsRegistered(genesis, r)
    ensures RecordsRegistered(genesis, PersistTransactions(r, height, s).value)
  {
    var r' := PersistTransactions(r, height, s).value;
    R.PersistExact(r, height, s);
    StoreContents(r.txs, height, s);
    forall h | h in r'.assets
      ensures || FromRegistration(r'.txs, h, r'.assets[h])
              || (h == ELA_ASSET_ID && r'.assets[h].asset == genesis.txType.asset && r'.assets[h].height == 0)
    {
      if h in AssetHashes(s) {
        BlockRecorded(r, height, s, h);
      } else if FromRegistration(r.txs, h, r.assets[h]) {
        var t :| t in r.txs && r.txs[t].tx.txType.RegisterAsset? && r.txs[t].tx.txType.asset.hash == h
                 && r.assets[h].asset == r.txs[t].tx.txType.asset && r.assets[h].height == r.txs[t].height;
        assert t in r'.txs && r'.txs[t] == r.txs[t];
      }
    }
  }

  /** On every chain each record, other than the one genesis makes, is the payload
      of a stored registration of its hash, at that transaction's stored height. */
  lemma {:induction false} RecordsArePayloads(genesis: Tx, chain: seq<Block>)
    requires IsGenesis(genesis) && ChainOk(genesis, chain)
    ensures RecordsRegistered(genesis, Replay(genesis, chain).reg)
    decreases |chain|
  {
    if chain != [] {
      var db, b := Replay(genesis, Front(chain)), Last(chain);
      RecordsArePayloads(genesis, Front(chain));
      RecordsStay(genesis, db.reg, b.height, b.txs);
    }
  }
}
