/** Chains whose transactions pass every rule that is modelled. */
module Passing {
  import opened Bytes
  import opened Types
  import opened Ledger
  import opened Validator
  import opened ChainDb
  import opened Runs
  import opened Supply
  import R = Registry

  /** The least precision a registration may have. Nothing is assumed about it. */
  const MIN_PRECISION: byte

  predicate PayloadOk(tx: Tx) {
    tx.txType.RegisterAsset? ==> MIN_PRECISION <= tx.txType.asset.precision <= 18
  }

  /** All the checks, against the state before the block and the height of its tip.
      Coinbases and recharges take nothing from the ledger, so nothing is asked of
      their inputs. */
  ghost predicate Passes(params: Params, share: int64 -> int64, reg: R.Registry, tip: uint32, tx: Tx) {
    && AmountsOk(params, share, reg, tx)
    && PayloadOk(tx)
    && PrecisionsInRange(reg.assets) && PrecisionOk(reg.assets, tx)
    && (tx.txType.CoinBase? || tx.txType.RechargeToSideChain? ||
        forall j | 0 <= j < |tx.inputs| :: ReferenceOk(params, reg.txs, tip, tx.inputs[j]))
  }

  ghost predicate ChainPasses(params: Params, share: int64 -> int64, genesis: Tx, chain: seq<Block>)
    requires IsGenesis(genesis)
  {
    chain == [] ||
    (&& ChainPasses(params, share, genesis, Front(chain))
     && var reg, tip := Replay(genesis, Front(chain)).reg, TipHeight(Front(chain));
        forall i | 0 <= i < |Last(chain).txs| :: Passes(params, share, reg, tip, Last(chain).txs[i]))
  }

  /** The supply laws speak of every such chain. */
  lemma {:induction false} PassingAmounts(params: Params, share: int64 -> int64, genesis: Tx, chain: seq<Block>)
    requires IsGenesis(genesis) && ChainPasses(params, share, genesis, chain)
    ensures AmountsChecked(params, share, genesis, chain)
    decreases |chain|
  {
    if chain != [] {
      PassingAmounts(params, share, genesis, Front(chain));
    }
  }

  // What the precision rules keep

  lemma {:induction false} PersistKeepsPrecisions(r: R.Registry, height: uint32, s: seq<Tx>)
    requires PrecisionsInRange(r.assets) && R.PersistTransactions(r, height, s).Ok?
    requires forall i | 0 <= i < |s| && s[i].txType.RegisterAsset? ::
               PayloadOk(s[i]) && s[i].txType.asset.hash != ELA_ASSET_ID
    ensures PrecisionsInRange(R.PersistTransactions(r, height, s).value.assets)
    decreases s
  {
    if s != [] {
      assert forall i | 0 <= i < |s| - 1 :: s[1..][i] == s[i + 1];
      PersistKeepsPrecisions(R.PersistTx(r, height, s[0]).value, height, s[1..]);
    }
  }

  /** The precisions on record stay within what the precision check can divide by,
      so the checks never ask more of a block than they say. */
  lemma {:induction false} PrecisionsKept(params: Params, share: int64 -> int64, genesis: Tx, chain: seq<Block>)
    requires IsGenesis(genesis) && genesis.txType.asset.precision <= 8
    requires ChainOk(genesis, chain) && ChainPasses(params, share, genesis, chain)
    ensures PrecisionsInRange(Replay(genesis, chain).reg.assets)
    decreases |chain|
  {
    if chain != [] {
      var reg, tip, s := Replay(genesis, Front(chain)).reg, TipHeight(Front(chain)), Last(chain).txs;
      PrecisionsKept(params, share, genesis, Front(chain));
      forall i | 0 <= i < |s| && s[i].txType.RegisterAsset? ensures PayloadOk(s[i]) && s[i].txType.asset.hash != ELA_ASSET_ID {
        assert Passes(params, share, reg, tip, s[i]);
        RegisteredIsNotEla(params, share, reg, s[i]);
      }
      PersistKeepsPrecisions(reg, Last(chain).height, s);
    }
  }

  /** An output in an asset that is not on record is one of a registration. */
  ghost predicate OnRecord(reg: R.Registry, o: Outpoint)
    requires IsOutput(reg.txs, o)
  {
    OutputOf(reg.txs, o).assetID in reg.assets || reg.txs[o.txid].tx.txType.RegisterAsset?
  }

  lemma PassingOnRecord(params: Params, share: int64 -> int64, reg: R.Registry, tip: uint32, tx: Tx, i: nat)
    requires Passes(params, share, reg, tip, tx) && i < |tx.outputs|
    ensures tx.outputs[i].assetID in reg.assets || tx.txType.RegisterAsset?
  {
    assert tx.txType.RegisterAsset? || OutputPrecise(reg.assets, tx.outputs[i]);
  }

  ghost predicate AllOnRecord(reg: R.Registry) {
    forall o | IsOutput(reg.txs, o) :: OnRecord(reg, o)
  }

  /** The outputs of a block that are not in an asset on record are registrations'. */
  ghost predicate EscapesRegister(reg: R.Registry, s: seq<Tx>) {
    forall n, i: nat | 0 <= n < |s| && i < |s[n].outputs| ::
      s[n].outputs[i].assetID in reg.assets || s[n].txType.RegisterAsset?
  }

  lemma BlockOnRecord(before: R.Registry, reg: R.Registry, height: uint32, s: seq<Tx>)
    requires Fresh(before.txs, s) && reg.txs == Store(before.txs, height, s) && before.assets.Keys <= reg.assets.Keys
    requires AllOnRecord(before) && EscapesRegister(before, s)
    ensures AllOnRecord(reg)
  {
    StoreContents(before.txs, height, s);
    forall o | IsOutput(reg.txs, o) ensures OnRecord(reg, o) {
      if o.txid in before.txs {
        assert IsOutput(before.txs, o) && OnRecord(before, o);
      } else {
        var n :| 0 <= n < |s| && s[n].hash == o.txid;
        assert reg.txs[o.txid].tx == s[n];
      }
    }
  }

  lemma BlockEscapes(params: Params, share: int64 -> int64, reg: R.Registry, tip: uint32, s: seq<Tx>)
    requires forall i | 0 <= i < |s| :: Passes(params, share, reg, tip, s[i])
    ensures EscapesRegister(reg, s)
  {
    forall n, i: nat | 0 <= n < |s| && i < |s[n].outputs|
      ensures s[n].outputs[i].assetID in reg.assets || s[n].txType.RegisterAsset?
    {
      PassingOnRecord(params, share, reg, tip, s[n], i);
    }
  }

  lemma RecordsGrow(genesis: Tx, chain: seq<Block>)
    requires IsGenesis(genesis) && chain != [] && ChainOk(genesis, chain)
    ensures Replay(genesis, Front(chain)).reg.assets.Keys <= Replay(genesis, chain).reg.assets.Keys
  {
    R.PersistExact(Replay(genesis, Front(chain)).reg, Last(chain).height, Last(chain).txs);
  }

  /** Registrations are the only way for an asset to enter without being recorded. */
  lemma {:induction false} OnlyRegistrationsEscape(params: Params, share: int64 -> int64, genesis: Tx, chain: seq<Block>)
    requires IsGenesis(genesis) && ChainOk(genesis, chain) && ChainPasses(params, share, genesis, chain)
    ensures AllOnRecord(Replay(genesis, chain).reg)
    decreases |chain|
  {
    if chain != [] {
      var before := Replay(genesis, Front(chain)).reg;
      OnlyRegistrationsEscape(params, share, genesis, Front(chain));
      BlockEscapes(params, share, before, TipHeight(Front(chain)), Last(chain).txs);
      ReplayStores(genesis, chain);
      RecordsGrow(genesis, chain);
      BlockOnRecord(before, Replay(genesis, chain).reg, Last(chain).height, Last(chain).txs);
    }
  }
}
