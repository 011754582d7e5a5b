/** Token supply over whole chains whose amounts have been checked. */
module Supply {
  import opened Bytes
  import opened Types
  import opened Buckets
  import opened Ledger
  import opened Sums
  import opened Conservation
  import opened Validator
  import opened ChainDb
  import opened Runs
  import opened Streams
  import R = Registry

  /** The rules on amounts, against the state before the block: what the supply
      depends on. A recharge brings its ELA from the main chain, so its balance is
      not asked for. */
  ghost predicate AmountsOk(params: Params, share: int64 -> int64, reg: R.Registry, tx: Tx) {
    && OutputsOk(params, share, tx)
    && (tx.txType.CoinBase? || tx.txType.RechargeToSideChain? || BalanceOk(params, reg.txs, tx))
    && (tx.txType.RegisterAsset? ==> RegistrationOk(reg.assets, tx))
  }

  ghost predicate AmountsChecked(params: Params, share: int64 -> int64, genesis: Tx, chain: seq<Block>)
    requires IsGenesis(genesis)
  {
    chain == [] ||
    (&& AmountsChecked(params, share, genesis, Front(chain))
     && forall i | 0 <= i < |Last(chain).txs| :: AmountsOk(params, share, Replay(genesis, Front(chain)).reg, Last(chain).txs[i]))
  }

  /** A sum over all transactions of a chain, each seen with the state before its block. */
  ghost function ChainSum(genesis: Tx, chain: seq<Block>, f: (Txs, Tx) -> int): int
    requires IsGenesis(genesis)
  {
    if chain == [] then 0
    else ChainSum(genesis, Front(chain), f) + SumOf(Last(chain).txs, On(f, Replay(genesis, Front(chain)).reg.txs))
  }

  function On(f: (Txs, Tx) -> int, txs: Txs): Tx -> int {
    (tx: Tx) => f(txs, tx)
  }

  function GainOf(w: Weight): (Txs, Tx) -> int {
    (txs: Txs, tx: Tx) => OutWorth(w, tx) - InWorth(w, txs, tx)
  }

  lemma ReplayStores(genesis: Tx, chain: seq<Block>)
    requires IsGenesis(genesis) && chain != [] && ChainOk(genesis, chain)
    ensures
      var before := Replay(genesis, Front(chain));
      && Valid(before)
      && Fresh(before.reg.txs, Last(chain).txs)
      && Spendable(BlockSpends(Last(chain).txs), Unspent(before.reg.txs))
      && Replay(genesis, chain).reg.txs == Store(before.reg.txs, Last(chain).height, Last(chain).txs)
  {
    ReplayValid(genesis, Front(chain));
    ChainDb.PersistExact(Replay(genesis, Front(chain)), Last(chain));
  }

  /** The total of any quantity is the sum of the gains of the chain's transactions. */
  lemma {:induction false} TotalIsGains(w: Weight, genesis: Tx, chain: seq<Block>)
    requires IsGenesis(genesis) && ChainOk(genesis, chain)
    ensures Total(w, Replay(genesis, chain).reg.txs) == ChainSum(genesis, chain, GainOf(w))
    decreases |chain|
  {
    if chain == [] {
      assert Unspent(InitDb(genesis).reg.txs) == {};
    } else {
      var before, b := Replay(genesis, Front(chain)).reg.txs, Last(chain);
      ReplayStores(genesis, chain);
      TotalIsGains(w, genesis, Front(chain));
      BlockMovesTotal(w, before, b.height, b.txs);
      SumOfCongruent(b.txs, Gain(w, before), On(GainOf(w), before));
    }
  }

  // What a transaction does to the tokens

  function Issued(): (Txs, Tx) -> int {
    (txs: Txs, tx: Tx) => if tx.txType.RegisterAsset? then tx.txType.amount * TOKEN_UNIT else 0
  }

  /** Tokens a registration or a recharge takes in: they need not come out again. */
  function Consumed(w: Weight): (Txs, Tx) -> int {
    (txs: Txs, tx: Tx) => if tx.txType.RegisterAsset? || tx.txType.RechargeToSideChain? then InWorth(w, txs, tx) else 0
  }

  /** Tokens a registration puts out in other assets than its own, and any tokens
      a coinbase puts out. */
  function Foreign(): (Txs, Tx) -> int {
    (txs: Txs, tx: Tx) => SumOf(tx.outputs, ForeignValue(tx))
  }

  function ForeignValue(tx: Tx): Weight {
    (out: Output) =>
      if tx.txType.CoinBase? || (tx.txType.RegisterAsset? && out.assetID != tx.txType.asset.hash) then TokenValue(out) else 0
  }

  lemma {:induction false} OwnAndForeign(tx: Tx, s: seq<Output>)
    requires tx.txType.RegisterAsset? && tx.txType.asset.hash != ELA_ASSET_ID
    ensures SumOf(s, TokenValue) == SumOf(s, AssetValue(tx.txType.asset.hash)) + SumOf(s, ForeignValue(tx))
    decreases s
  {
    if s != [] {
      OwnAndForeign(tx, s[1..]);
    }
  }

  lemma {:induction false} NoneForeign(tx: Tx, s: seq<Output>)
    requires !tx.txType.RegisterAsset? && !tx.txType.CoinBase?
    ensures SumOf(s, ForeignValue(tx)) == 0
    decreases s
  {
    if s != [] {
      NoneForeign(tx, s[1..]);
    }
  }

  lemma {:induction false} SumOfZero<T>(s: seq<T>, f: T -> int)
    requires forall i | 0 <= i < |s| :: f(s[i]) == 0
    ensures SumOf(s, f) == 0
    decreases s
  {
    if s != [] {
      assert forall i | 0 <= i < |s| - 1 :: s[1..][i] == s[i + 1];
      SumOfZero(s[1..], f);
    }
  }

  /** Validated ELA outputs carry no tokens, so an asset with a positive amount
      put out is not the system asset. */
  lemma RegisteredIsNotEla(params: Params, share: int64 -> int64, reg: R.Registry, tx: Tx)
    requires AmountsOk(params, share, reg, tx) && tx.txType.RegisterAsset?
    ensures tx.txType.asset.hash != ELA_ASSET_ID
  {
    if tx.txType.asset.hash == ELA_ASSET_ID {
      forall i | 0 <= i < |tx.outputs| ensures AssetValue(ELA_ASSET_ID)(tx.outputs[i]) == 0 {
        assert OutputOk(params, tx, tx.outputs[i]);
      }
      SumOfZero(tx.outputs, AssetValue(ELA_ASSET_ID));
    }
  }

  /** A recharge puts out no tokens of any kind. */
  lemma RechargePutsOutEla(params: Params, share: int64 -> int64, reg: R.Registry, tx: Tx, asset: Uint256)
    requires AmountsOk(params, share, reg, tx) && tx.txType.RechargeToSideChain?
    ensures OutWorth(TokenValue, tx) == 0 && OutWorth(AssetValue(asset), tx) == 0
  {
    forall i | 0 <= i < |tx.outputs| ensures TokenValue(tx.outputs[i]) == 0 && AssetValue(asset)(tx.outputs[i]) == 0 {
      assert OutputOk(params, tx, tx.outputs[i]);
    }
    SumOfZero(tx.outputs, TokenValue);
    SumOfZero(tx.outputs, AssetValue(asset));
  }

  lemma CoinbaseTokens(txs: Txs, tx: Tx)
    requires tx.txType.CoinBase?
    ensures InWorth(TokenValue, txs, tx) == 0 && OutWorth(TokenValue, tx) == SumOf(tx.outputs, ForeignValue(tx))
  {
    SumOfCongruent(tx.outputs, TokenValue, ForeignValue(tx));
  }

  /** The terms of the law for one transaction. */
  lemma TermsAre(txs: Txs, tx: Tx)
    ensures On(GainOf(TokenValue), txs)(tx) == OutWorth(TokenValue, tx) - InWorth(TokenValue, txs, tx)
    ensures On(Issued(), txs)(tx) == if tx.txType.RegisterAsset? then tx.txType.amount * TOKEN_UNIT else 0
    ensures On(Consumed(TokenValue), txs)(tx)
            == if tx.txType.RegisterAsset? || tx.txType.RechargeToSideChain? then InWorth(TokenValue, txs, tx) else 0
    ensures On(Foreign(), txs)(tx) == SumOf(tx.outputs, ForeignValue(tx))
  {
  }

  lemma BalancedTokens(params: Params, txs: Txs, tx: Tx)
    requires BalanceOk(params, txs, tx) && !tx.txType.RegisterAsset? && !tx.txType.CoinBase?
    ensures OutWorth(TokenValue, tx) == InWorth(TokenValue, txs, tx)
  {
  }

  lemma TxTokens(params: Params, share: int64 -> int64, reg: R.Registry, tx: Tx)
    requires AmountsOk(params, share, reg, tx)
    ensures On(GainOf(TokenValue), reg.txs)(tx)
            == On(Issued(), reg.txs)(tx) - On(Consumed(TokenValue), reg.txs)(tx) + On(Foreign(), reg.txs)(tx)
  {
    TermsAre(reg.txs, tx);
    match tx.txType {
      case CoinBase =>
        CoinbaseTokens(reg.txs, tx);
      case RegisterAsset(asset, amount, controller) =>
        RegisteredIsNotEla(params, share, reg, tx);
        OwnAndForeign(tx, tx.outputs);
      case RechargeToSideChain(_) =>
        RechargePutsOutEla(params, share, reg, tx, ELA_ASSET_ID);
        NoneForeign(tx, tx.outputs);
      case _ =>
        BalancedTokens(params, reg.txs, tx);
        NoneForeign(tx, tx.outputs);
    }
  }

  lemma {:induction false} SumsCombine(s: seq<Tx>, gain: Tx -> int, a: Tx -> int, b: Tx -> int, c: Tx -> int)
    requires forall i | 0 <= i < |s| :: gain(s[i]) == a(s[i]) - b(s[i]) + c(s[i])
    ensures SumOf(s, gain) == SumOf(s, a) - SumOf(s, b) + SumOf(s, c)
    decreases s
  {
    if s != [] {
      assert forall i | 0 <= i < |s| - 1 :: s[1..][i] == s[i + 1];
      SumsCombine(s[1..], gain, a, b, c);
    }
  }

  lemma {:induction false} GainsAreIssues(params: Params, share: int64 -> int64, genesis: Tx, chain: seq<Block>)
    requires IsGenesis(genesis) && ChainOk(genesis, chain) && AmountsChecked(params, share, genesis, chain)
    ensures ChainSum(genesis, chain, GainOf(TokenValue))
            == ChainSum(genesis, chain, Issued()) - ChainSum(genesis, chain, Consumed(TokenValue)) + ChainSum(genesis, chain, Foreign())
    decreases |chain|
  {
    if chain != [] {
      var reg, s := Replay(genesis, Front(chain)).reg, Last(chain).txs;
      GainsAreIssues(params, share, genesis, Front(chain));
      forall i | 0 <= i < |s|
        ensures On(GainOf(TokenValue), reg.txs)(s[i])
                == On(Issued(), reg.txs)(s[i]) - On(Consumed(TokenValue), reg.txs)(s[i]) + On(Foreign(), reg.txs)(s[i])
      {
        TxTokens(params, share, reg, s[i]);
      }
      SumsCombine(s, On(GainOf(TokenValue), reg.txs), On(Issued(), reg.txs), On(Consumed(TokenValue), reg.txs), On(Foreign(), reg.txs));
    }
  }

  /** Aggregate token supply of every chain whose amounts pass: all non-ELA value unspent
      is what was registered, less what registrations and recharges took in, plus
      what registrations and coinbases put out in foreign assets. So supply is
      issue less consumption exactly when those foreign outputs sum to nothing. */
  lemma SupplyExact(params: Params, share: int64 -> int64, genesis: Tx, chain: seq<Block>)
    requires IsGenesis(genesis) && ChainOk(genesis, chain) && AmountsChecked(params, share, genesis, chain)
    ensures Total(TokenValue, Replay(genesis, chain).reg.txs)
            == ChainSum(genesis, chain, Issued()) - ChainSum(genesis, chain, Consumed(TokenValue)) + ChainSum(genesis, chain, Foreign())
    ensures Total(TokenValue, Replay(genesis, chain).reg.txs)
            == ChainSum(genesis, chain, Issued()) - ChainSum(genesis, chain, Consumed(TokenValue))
            <==> ChainSum(genesis, chain, Foreign()) == 0
  {
    TotalIsGains(TokenValue, genesis, chain);
    GainsAreIssues(params, share, genesis, chain);
  }

  // Chains whose registrations put out only ELA or their own asset, and whose
  // coinbases put out only ELA

  ghost predicate OwnTokensOnly(tx: Tx) {
    forall i | 0 <= i < |tx.outputs| && tx.outputs[i].assetID != ELA_ASSET_ID ::
      !tx.txType.CoinBase? && (tx.txType.RegisterAsset? ==> tx.outputs[i].assetID == tx.txType.asset.hash)
  }

  ghost predicate NothingForeign(chain: seq<Block>) {
    forall n, i | 0 <= n < |chain| && 0 <= i < |chain[n].txs| :: OwnTokensOnly(chain[n].txs[i])
  }

  lemma {:induction false} OwnOnlyNoForeign(tx: Tx, s: seq<Output>)
    requires forall i | 0 <= i < |s| && s[i].assetID != ELA_ASSET_ID ::
               !tx.txType.CoinBase? && (tx.txType.RegisterAsset? ==> s[i].assetID == tx.txType.asset.hash)
    ensures SumOf(s, ForeignValue(tx)) == 0
    decreases s
  {
    if s != [] {
      assert forall i | 0 <= i < |s| - 1 :: s[1..][i] == s[i + 1];
      OwnOnlyNoForeign(tx, s[1..]);
    }
  }

  lemma FrontOwn(chain: seq<Block>)
    requires chain != [] && NothingForeign(chain)
    ensures NothingForeign(Front(chain))
    ensures forall i | 0 <= i < |Last(chain).txs| :: OwnTokensOnly(Last(chain).txs[i])
  {
    assert Last(chain) == chain[|chain| - 1];
    assert forall n | 0 <= n < |chain| - 1 :: Front(chain)[n] == chain[n];
  }

  lemma {:induction false} NoForeignSum(genesis: Tx, chain: seq<Block>)
    requires IsGenesis(genesis) && NothingForeign(chain)
    ensures ChainSum(genesis, chain, Foreign()) == 0
    decreases |chain|
  {
    if chain != [] {
      var txs, s := Replay(genesis, Front(chain)).reg.txs, Last(chain).txs;
      FrontOwn(chain);
      NoForeignSum(genesis, Front(chain));
      forall i | 0 <= i < |s| ensures On(Foreign(), txs)(s[i]) == 0 {
        OwnOnlyNoForeign(s[i], s[i].outputs);
      }
      SumOfZero(s, On(Foreign(), txs));
    }
  }

  /** On such chains supply is what was registered less what registrations took in. */
  lemma SupplyIsIssuedLessConsumed(params: Params, share: int64 -> int64, genesis: Tx, chain: seq<Block>)
    requires IsGenesis(genesis) && ChainOk(genesis, chain) && AmountsChecked(params, share, genesis, chain)
    requires NothingForeign(chain)
    ensures Total(TokenValue, Replay(genesis, chain).reg.txs)
            == ChainSum(genesis, chain, Issued()) - ChainSum(genesis, chain, Consumed(TokenValue))
  {
    SupplyExact(params, share, genesis, chain);
    NoForeignSum(genesis, chain);
  }

  // Bounds

  lemma OutputNonNegative(params: Params, share: int64 -> int64, reg: R.Registry, tx: Tx, i: nat)
    requires AmountsOk(params, share, reg, tx) && OwnTokensOnly(tx) && i < |tx.outputs|
    ensures TokenValue(tx.outputs[i]) >= 0
  {
    if !tx.txType.CoinBase? {
      assert OutputOk(params, tx, tx.outputs[i]);
    }
  }

  ghost predicate AllWithin(txs: Txs, bound: int) {
    forall o | IsOutput(txs, o) :: 0 <= TokenValue(OutputOf(txs, o)) <= bound
  }

  lemma {:induction false} SumOfNonNegative<T>(s: seq<T>, f: T -> int)
    requires forall i | 0 <= i < |s| :: f(s[i]) >= 0
    ensures SumOf(s, f) >= 0
    decreases s
  {
    if s != [] {
      assert forall i | 0 <= i < |s| - 1 :: s[1..][i] == s[i + 1];
      SumOfNonNegative(s[1..], f);
    }
  }

  lemma ConsumedNonNegative(txs: Txs, bound: int, tx: Tx)
    requires AllWithin(txs, bound)
    ensures On(Consumed(TokenValue), txs)(tx) >= 0
  {
    SumOfNonNegative(tx.Spends(), WorthAt(TokenValue, txs));
  }

  lemma BlockOutputsNonNegative(params: Params, share: int64 -> int64, genesis: Tx, chain: seq<Block>, bound: int)
    requires IsGenesis(genesis) && chain != [] && ChainOk(genesis, chain) && AmountsChecked(params, share, genesis, chain)
    requires NothingForeign(chain) && AllWithin(Replay(genesis, Front(chain)).reg.txs, bound)
    ensures
      var txs := Replay(genesis, chain).reg.txs;
      forall o | IsOutput(txs, o) :: TokenValue(OutputOf(txs, o)) >= 0
  {
    var before, b, txs := Replay(genesis, Front(chain)).reg, Last(chain), Replay(genesis, chain).reg.txs;
    ReplayStores(genesis, chain);
    StoreContents(before.txs, b.height, b.txs);
    FrontOwn(chain);
    forall o | IsOutput(txs, o) ensures TokenValue(OutputOf(txs, o)) >= 0 {
      if o.txid in before.txs {
        assert IsOutput(before.txs, o);
      } else {
        var i :| 0 <= i < |b.txs| && b.txs[i].hash == o.txid;
        OutputNonNegative(params, share, before, b.txs[i], o.index);
      }
    }
  }

  /** Every token value ever stored on such a chain is at most the amount issued. */
  lemma {:induction false} ValuesBoundedByIssue(params: Params, share: int64 -> int64, genesis: Tx, chain: seq<Block>)
    requires IsGenesis(genesis) && ChainOk(genesis, chain) && AmountsChecked(params, share, genesis, chain)
    requires NothingForeign(chain)
    ensures AllWithin(Replay(genesis, chain).reg.txs, ChainSum(genesis, chain, Issued()))
    ensures ChainSum(genesis, chain, Consumed(TokenValue)) >= 0
    decreases |chain|
  {
    if chain != [] {
      var before, b, all := Replay(genesis, Front(chain)).reg, Last(chain), Replay(genesis, chain).reg.txs;
      FrontOwn(chain);
      ValuesBoundedByIssue(params, share, genesis, Front(chain));
      forall i | 0 <= i < |b.txs| ensures On(Consumed(TokenValue), before.txs)(b.txs[i]) >= 0 {
        ConsumedNonNegative(before.txs, ChainSum(genesis, Front(chain), Issued()), b.txs[i]);
      }
      SumOfNonNegative(b.txs, On(Consumed(TokenValue), before.txs));
      SumOfNonNegative(b.txs, On(Issued(), before.txs));
      BlockOutputsNonNegative(params, share, genesis, chain, ChainSum(genesis, Front(chain), Issued()));
      NewOutputsWithin(params, share, genesis, chain);
      StoredWithin(genesis, chain);
    }
  }

  lemma NewOutputsWithin(params: Params, share: int64 -> int64, genesis: Tx, chain: seq<Block>)
    requires IsGenesis(genesis) && chain != [] && ChainOk(genesis, chain) && AmountsChecked(params, share, genesis, chain)
    requires NothingForeign(chain) && ChainSum(genesis, chain, Consumed(TokenValue)) >= 0
    requires
      var txs := Replay(genesis, chain).reg.txs;
      forall o | IsOutput(txs, o) :: TokenValue(OutputOf(txs, o)) >= 0
    ensures
      var txs := Replay(genesis, chain).reg.txs;
      forall o | o in BlockOutpoints(Last(chain).txs) ::
        IsOutput(txs, o) && TokenValue(OutputOf(txs, o)) <= ChainSum(genesis, chain, Issued())
  {
    var txs := Replay(genesis, chain).reg.txs;
    var before := Replay(genesis, Front(chain)).reg.txs;
    ReplayStores(genesis, chain);
    UnspentAfterStore(before, Last(chain).height, Last(chain).txs);
    SupplyIsIssuedLessConsumed(params, share, genesis, chain);
    forall o | o in BlockOutpoints(Last(chain).txs)
      ensures IsOutput(txs, o) && TokenValue(OutputOf(txs, o)) <= ChainSum(genesis, chain, Issued())
    {
      assert o in Unspent(txs);
      UnspentWithinTotal(txs, o);
    }
  }

  lemma UnspentWithinTotal(txs: Txs, o: Outpoint)
    requires o in Unspent(txs) && forall o' | IsOutput(txs, o') :: TokenValue(OutputOf(txs, o')) >= 0
    ensures TokenValue(OutputOf(txs, o)) <= Total(TokenValue, txs)
  {
    forall o' | o' in Unspent(txs) ensures WorthAt(TokenValue, txs)(o') >= 0 {
      WorthIs(TokenValue, txs, o');
    }
    SumBoundsTerm(Unspent(txs), WorthAt(TokenValue, txs), o);
    WorthIs(TokenValue, txs, o);
  }

  lemma StoredWithin(genesis: Tx, chain: seq<Block>)
    requires IsGenesis(genesis) && chain != [] && ChainOk(genesis, chain)
    requires AllWithin(Replay(genesis, Front(chain)).reg.txs, ChainSum(genesis, Front(chain), Issued()))
    requires ChainSum(genesis, Front(chain), Issued()) <= ChainSum(genesis, chain, Issued())
    requires
      var txs := Replay(genesis, chain).reg.txs;
      && (forall o | IsOutput(txs, o) :: TokenValue(OutputOf(txs, o)) >= 0)
      && forall o | o in BlockOutpoints(Last(chain).txs) ::
           IsOutput(txs, o) && TokenValue(OutputOf(txs, o)) <= ChainSum(genesis, chain, Issued())
    ensures AllWithin(Replay(genesis, chain).reg.txs, ChainSum(genesis, chain, Issued()))
  {
    var before, b, txs := Replay(genesis, Front(chain)).reg.txs, Last(chain), Replay(genesis, chain).reg.txs;
    ReplayStores(genesis, chain);
    StoreContents(before, b.height, b.txs);
    forall o | IsOutput(txs, o)
      ensures TokenValue(OutputOf(txs, o)) <= ChainSum(genesis, chain, Issued())
    {
      if o.txid in before {
        assert IsOutput(before, o);
      } else {
        var i :| 0 <= i < |b.txs| && b.txs[i].hash == o.txid;
        assert o in TxOutpoints(b.txs[i]);
        BlockOutpointsMembers(b.txs, o);
      }
    }
  }

  // The 33-byte limit on token values

  /** 2^141 and the largest single issue: amounts are positive int64 numbers. */
  const TWO_141: int := 2787593149816327892691964784081045188247552
  const MAX_ISSUE: int := 9223372036854775807000000000000000000

  function Registrations(): (Txs, Tx) -> int {
    (txs: Txs, tx: Tx) => if tx.txType.RegisterAsset? then 1 else 0
  }

  lemma Distribute(a: int, b: int)
    ensures (a + b) * MAX_ISSUE == a * MAX_ISSUE + b * MAX_ISSUE
  {
  }

  lemma {:induction false} IssuedPerBlock(txs: Txs, s: seq<Tx>)
    ensures SumOf(s, On(Issued(), txs)) <= SumOf(s, On(Registrations(), txs)) * MAX_ISSUE
    decreases s
  {
    if s != [] {
      IssuedPerBlock(txs, s[1..]);
      Distribute(On(Registrations(), txs)(s[0]), SumOf(s[1..], On(Registrations(), txs)));
    }
  }

  lemma {:induction false} IssuedBound(genesis: Tx, chain: seq<Block>)
    requires IsGenesis(genesis)
    ensures ChainSum(genesis, chain, Issued()) <= ChainSum(genesis, chain, Registrations()) * MAX_ISSUE
    decreases |chain|
  {
    if chain != [] {
      var txs := Replay(genesis, Front(chain)).reg.txs;
      IssuedBound(genesis, Front(chain));
      IssuedPerBlock(txs, Last(chain).txs);
      Distribute(ChainSum(genesis, Front(chain), Registrations()), SumOf(Last(chain).txs, On(Registrations(), txs)));
    }
  }

  lemma Capacity()
    ensures (TWO_141 - 1) * MAX_ISSUE < Pow256(MAX_TOKEN_VALUE_DATA_SIZE)
  {
    Pow256Of33();
  }

  lemma IssuedFits(registrations: int, issued: int)
    requires registrations < TWO_141 && issued <= registrations * MAX_ISSUE
    ensures issued < Pow256(MAX_TOKEN_VALUE_DATA_SIZE)
  {
    Capacity();
    Distribute(registrations, TWO_141 - 1 - registrations);
  }

  /** On a chain with fewer than 2^141 registrations every value ever stored fits
      the 33 bytes that a reader accepts. */
  lemma StoredValuesFit(params: Params, share: int64 -> int64, genesis: Tx, chain: seq<Block>, o: Outpoint)
    requires IsGenesis(genesis) && ChainOk(genesis, chain) && AmountsChecked(params, share, genesis, chain)
    requires NothingForeign(chain) && ChainSum(genesis, chain, Registrations()) < TWO_141
    requires IsOutput(Replay(genesis, chain).reg.txs, o)
    ensures |ValueBytes(OutputOf(Replay(genesis, chain).reg.txs, o))| <= MAX_TOKEN_VALUE_DATA_SIZE
  {
    var out := OutputOf(Replay(genesis, chain).reg.txs, o);
    ValuesBoundedByIssue(params, share, genesis, chain);
    IssuedBound(genesis, chain);
    IssuedFits(ChainSum(genesis, chain, Registrations()), ChainSum(genesis, chain, Issued()));
    assert 0 <= TokenValue(out) <= ChainSum(genesis, chain, Issued());
    ValueBytesFit(out);
  }

  lemma ValueBytesFit(out: Output)
    requires 0 <= TokenValue(out) < Pow256(MAX_TOKEN_VALUE_DATA_SIZE)
    ensures |ValueBytes(out)| <= MAX_TOKEN_VALUE_DATA_SIZE
  {
    if out.assetID != ELA_ASSET_ID {
      BigEndianLength(out.tokenValue, MAX_TOKEN_VALUE_DATA_SIZE);
    }
  }

  /** The same for the lists of every store that indexes such a chain. */
  lemma ListedValuesFit(params: Params, share: int64 -> int64, genesis: Tx, s: System, k: BucketKey, e: Utxo)
    requires IsGenesis(genesis) && OnChain(genesis, s) && AmountsChecked(params, share, genesis, s.chain)
    requires NothingForeign(s.chain) && ChainSum(genesis, s.chain, Registrations()) < TWO_141
    requires e in Bucket(s.db.utxos, k)
    ensures |e.value| <= MAX_TOKEN_VALUE_DATA_SIZE
  {
    var txs := Replay(genesis, s.chain).reg.txs;
    HoldsMember(s.db.utxos, Entries(txs, Unspent(txs)), k, e);
    var o :| o in Unspent(txs) && EntryOf(txs, o) == (k, e);
    StoredValuesFit(params, share, genesis, s.chain, o);
  }

  // Supply of one asset

  function IssuedOf(asset: Uint256): (Txs, Tx) -> int {
    (txs: Txs, tx: Tx) =>
      if tx.txType.RegisterAsset? && tx.txType.asset.hash == asset then tx.txType.amount * TOKEN_UNIT else 0
  }

  /** What the rules let a transaction put out of an asset beyond its issue and
      beyond what it takes in: a registration of another asset, anything; a
      recharge, nothing; any other, the difference, as only aggregates must balance. */
  function Unchecked(asset: Uint256): (Txs, Tx) -> int {
    (txs: Txs, tx: Tx) =>
      match tx.txType
      case RegisterAsset(own, _, _) => if own.hash == asset then 0 else OutWorth(AssetValue(asset), tx)
      case RechargeToSideChain(_) => 0
      case _ => OutWorth(AssetValue(asset), tx) - InWorth(AssetValue(asset), txs, tx)
  }

  lemma TxAsset(params: Params, share: int64 -> int64, reg: R.Registry, tx: Tx, asset: Uint256)
    requires AmountsOk(params, share, reg, tx)
    ensures On(GainOf(AssetValue(asset)), reg.txs)(tx)
            == On(IssuedOf(asset), reg.txs)(tx) - On(Consumed(AssetValue(asset)), reg.txs)(tx) + On(Unchecked(asset), reg.txs)(tx)
  {
    if tx.txType.RechargeToSideChain? {
      RechargePutsOutEla(params, share, reg, tx, asset);
    }
  }

  lemma {:induction false} AssetGains(params: Params, share: int64 -> int64, genesis: Tx, chain: seq<Block>, asset: Uint256)
    requires IsGenesis(genesis) && ChainOk(genesis, chain) && AmountsChecked(params, share, genesis, chain)
    ensures ChainSum(genesis, chain, GainOf(AssetValue(asset)))
            == ChainSum(genesis, chain, IssuedOf(asset)) - ChainSum(genesis, chain, Consumed(AssetValue(asset)))
               + ChainSum(genesis, chain, Unchecked(asset))
    decreases |chain|
  {
    if chain != [] {
      var reg, s := Replay(genesis, Front(chain)).reg, Last(chain).txs;
      AssetGains(params, share, genesis, Front(chain), asset);
      forall i | 0 <= i < |s|
        ensures On(GainOf(AssetValue(asset)), reg.txs)(s[i])
                == On(IssuedOf(asset), reg.txs)(s[i]) - On(Consumed(AssetValue(asset)), reg.txs)(s[i]) + On(Unchecked(asset), reg.txs)(s[i])
      {
        TxAsset(params, share, reg, s[i], asset);
      }
      SumsCombine(s, On(GainOf(AssetValue(asset)), reg.txs), On(IssuedOf(asset), reg.txs),
                  On(Consumed(AssetValue(asset)), reg.txs), On(Unchecked(asset), reg.txs));
    }
  }

  /** Supply of any one asset on every such chain: its issue, less what
      registrations and recharges took in, plus what the rules leave unchecked. So
      it is issue less consumption exactly when the unchecked part sums to nothing. */
  lemma AssetSupplyExact(params: Params, share: int64 -> int64, genesis: Tx, chain: seq<Block>, asset: Uint256)
    requires IsGenesis(genesis) && ChainOk(genesis, chain) && AmountsChecked(params, share, genesis, chain)
    ensures Total(AssetValue(asset), Replay(genesis, chain).reg.txs)
            == ChainSum(genesis, chain, IssuedOf(asset)) - ChainSum(genesis, chain, Consumed(AssetValue(asset)))
               + ChainSum(genesis, chain, Unchecked(asset))
    ensures Total(AssetValue(asset), Replay(genesis, chain).reg.txs)
            == ChainSum(genesis, chain, IssuedOf(asset)) - ChainSum(genesis, chain, Consumed(AssetValue(asset)))
            <==> ChainSum(genesis, chain, Unchecked(asset)) == 0
  {
    TotalIsGains(AssetValue(asset), genesis, chain);
    AssetGains(params, share, genesis, chain, asset);
  }

  /** Apart from registrations and recharges, a transaction moves at most one token. */
  ghost predicate OneToken(txs: Txs, tx: Tx) {
    tx.txType.RegisterAsset? || tx.txType.RechargeToSideChain? || exists a :: MovesOnly(txs, tx, a)
  }

  ghost predicate MovesOnly(txs: Txs, tx: Tx, a: Uint256) {
    && (forall i | 0 <= i < |tx.outputs| :: tx.outputs[i].assetID == ELA_ASSET_ID || tx.outputs[i].assetID == a)
    && (forall o | o in tx.Spends() && IsOutput(txs, o) ::
          OutputOf(txs, o).assetID == ELA_ASSET_ID || OutputOf(txs, o).assetID == a)
  }

  ghost predicate OneTokenEach(genesis: Tx, chain: seq<Block>)
    requires IsGenesis(genesis)
  {
    chain == [] ||
    (&& OneTokenEach(genesis, Front(chain))
     && forall i | 0 <= i < |Last(chain).txs| :: OneToken(Replay(genesis, Front(chain)).reg.txs, Last(chain).txs[i]))
  }

  /** A transaction that moves only token `a` moves of any other token nothing. */
  lemma MovesOnlySums(txs: Txs, tx: Tx, a: Uint256, asset: Uint256)
    requires MovesOnly(txs, tx, a) && asset != ELA_ASSET_ID
    ensures asset == a ==> OutWorth(AssetValue(asset), tx) == OutWorth(TokenValue, tx)
    ensures asset == a ==> InWorth(AssetValue(asset), txs, tx) == InWorth(TokenValue, txs, tx)
    ensures asset != a ==> OutWorth(AssetValue(asset), tx) == 0 && InWorth(AssetValue(asset), txs, tx) == 0
  {
    forall out | out in tx.outputs
      ensures AssetValue(asset)(out) == if asset == a then TokenValue(out) else 0
    {
      var i :| 0 <= i < |tx.outputs| && tx.outputs[i] == out;
    }
    forall o | o in tx.Spends()
      ensures WorthAt(AssetValue(asset), txs)(o) == if asset == a then WorthAt(TokenValue, txs)(o) else 0
    {
      if IsOutput(txs, o) {
        WorthIs(AssetValue(asset), txs, o);
        WorthIs(TokenValue, txs, o);
      }
    }
    if asset == a {
      SumOfCongruent(tx.outputs, AssetValue(asset), TokenValue);
      SumOfCongruent(tx.Spends(), WorthAt(AssetValue(asset), txs), WorthAt(TokenValue, txs));
    } else {
      SumOfZero(tx.outputs, AssetValue(asset));
      SumOfZero(tx.Spends(), WorthAt(AssetValue(asset), txs));
    }
  }

  lemma BalancedUnchecked(params: Params, reg: R.Registry, tx: Tx, asset: Uint256)
    requires BalanceOk(params, reg.txs, tx) && OneToken(reg.txs, tx) && asset != ELA_ASSET_ID
    requires !tx.txType.RegisterAsset? && !tx.txType.RechargeToSideChain? && !tx.txType.CoinBase?
    ensures OutWorth(AssetValue(asset), tx) == InWorth(AssetValue(asset), reg.txs, tx)
  {
    var a :| MovesOnly(reg.txs, tx, a);
    MovesOnlySums(reg.txs, tx, a, asset);
    assert InWorth(TokenValue, reg.txs, tx) == InputSum(TokenValue, reg.txs, tx);
  }

  lemma OneTokenUnchecked(params: Params, share: int64 -> int64, reg: R.Registry, tx: Tx, asset: Uint256)
    requires AmountsOk(params, share, reg, tx) && OwnTokensOnly(tx) && OneToken(reg.txs, tx)
    requires asset != ELA_ASSET_ID
    ensures On(Unchecked(asset), reg.txs)(tx) == 0
  {
    match tx.txType {
      case RegisterAsset(own, _, _) =>
        if own.hash != asset {
          SumOfZero(tx.outputs, AssetValue(asset));
          assert On(Unchecked(asset), reg.txs)(tx) == OutWorth(AssetValue(asset), tx);
        }
      case RechargeToSideChain(_) =>
      case CoinBase =>
        assert InWorth(AssetValue(asset), reg.txs, tx) == 0;
        SumOfZero(tx.outputs, AssetValue(asset));
      case _ =>
        BalancedUnchecked(params, reg, tx, asset);
    }
  }

  lemma {:induction false} NothingUnchecked(params: Params, share: int64 -> int64, genesis: Tx, chain: seq<Block>, asset: Uint256)
    requires IsGenesis(genesis) && AmountsChecked(params, share, genesis, chain)
    requires NothingForeign(chain) && OneTokenEach(genesis, chain) && asset != ELA_ASSET_ID
    ensures ChainSum(genesis, chain, Unchecked(asset)) == 0
    decreases |chain|
  {
    if chain != [] {
      var reg, s := Replay(genesis, Front(chain)).reg, Last(chain).txs;
      FrontOwn(chain);
      NothingUnchecked(params, share, genesis, Front(chain), asset);
      forall i | 0 <= i < |s| ensures On(Unchecked(asset), reg.txs)(s[i]) == 0 {
        OneTokenUnchecked(params, share, reg, s[i], asset);
      }
      SumOfZero(s, On(Unchecked(asset), reg.txs));
    }
  }

  /** In particular on chains with nothing foreign whose other transactions move
      at most one token each. */
  lemma OneTokenSupply(params: Params, share: int64 -> int64, genesis: Tx, chain: seq<Block>, asset: Uint256)
    requires IsGenesis(genesis) && ChainOk(genesis, chain) && AmountsChecked(params, share, genesis, chain)
    requires NothingForeign(chain) && OneTokenEach(genesis, chain) && asset != ELA_ASSET_ID
    ensures Total(AssetValue(asset), Replay(genesis, chain).reg.txs)
            == ChainSum(genesis, chain, IssuedOf(asset)) - ChainSum(genesis, chain, Consumed(AssetValue(asset)))
  {
    AssetSupplyExact(params, share, genesis, chain, asset);
    NothingUnchecked(params, share, genesis, chain, asset);
  }
}
