/** Inputs that the code accepts and that do what its rules set out to prevent. */
module Examples {
  import opened Bytes
  import opened Types
  import opened Ledger
  import opened Sums
  import opened Conservation
  import opened UtxoIndex
  import opened ChainDb
  import opened RoundTrip
  import opened Runs
  import opened Supply
  import opened Passing
  import D = Decimal
  import V = Validator
  import R = Registry

  lemma SumOfOne<T>(a: T, f: T -> int)
    ensures SumOf([a], f) == f(a)
  {
    assert [a][1..] == [];
  }

  lemma SumOfTwo<T>(a: T, b: T, f: T -> int)
    ensures SumOf([a, b], f) == f(a) + f(b)
  {
    assert [a, b][1..] == [b];
    SumOfOne(b, f);
  }

  lemma SumOfThree<T>(a: T, b: T, c: T, f: T -> int)
    ensures SumOf([a, b, c], f) == f(a) + f(b) + f(c)
  {
    assert [a, b, c][1..] == [b, c];
    SumOfTwo(b, c, f);
  }

  // Transactions that pass

  /** ELA is on record with its eight digits, and the identifiers are told apart. */
  ghost predicate Usual(reg: R.Registry) {
    && V.PrecisionsInRange(reg.assets)
    && ELA_ASSET_ID in reg.assets && reg.assets[ELA_ASSET_ID].asset.precision == 8
    && ELA_ASSET_ID != V.EMPTY_HASH
  }

  /** An unspent ELA output that a new transaction may spend. */
  ghost predicate Funds(params: V.Params, reg: R.Registry, tip: uint32, o: Outpoint) {
    V.ReferenceOk(params, reg.txs, tip, o) && OutputOf(reg.txs, o).assetID == ELA_ASSET_ID
  }

  function ElaOutput(value: int64): Output {
    Output(ELA_ASSET_ID, value, 0, 0, V.ZERO_PROGRAM_HASH)
  }

  function TokenOutput(token: Uint256, n: int): Output {
    Output(token, 0, n, 0, V.ZERO_PROGRAM_HASH)
  }

  lemma ElaPrecise(reg: R.Registry, out: Output)
    requires Usual(reg) && out.assetID == ELA_ASSET_ID
    ensures V.OutputPrecise(reg.assets, out)
  {
    assert D.Pow10(0) == 1;
  }

  /** A coinbase with the foundation's share in its first output. */
  function Reward(params: V.Params, share: int64 -> int64, hash: Uint256, reward: int64): Tx {
    Tx(hash, CoinBase, 0, [],
       [Output(ELA_ASSET_ID, share(reward), 0, 0, params.foundation), ElaOutput(Sub64(reward, share(reward)))])
  }

  lemma RewardPasses(params: V.Params, share: int64 -> int64, reg: R.Registry, tip: uint32, hash: Uint256, reward: int64)
    requires Usual(reg) && 0 <= share(reward) <= reward
    ensures Passes(params, share, reg, tip, Reward(params, share, hash, reward))
  {
    var tx := Reward(params, share, hash, reward);
    SumOfTwo(tx.outputs[0], tx.outputs[1], V.AnyValue);
    SumOfTwo(tx.outputs[0], tx.outputs[1], V.FoundationValue(params));
    ElaPrecise(reg, tx.outputs[0]);
    ElaPrecise(reg, tx.outputs[1]);
  }

  /** A recharge that brings in `value` of ELA. */
  function Deposit(hash: Uint256, mainHash: Uint256, value: int64): Tx {
    Tx(hash, RechargeToSideChain(Some(mainHash)), 0, [], [ElaOutput(value)])
  }

  lemma DepositPasses(params: V.Params, share: int64 -> int64, reg: R.Registry, tip: uint32, hash: Uint256, mainHash: Uint256, value: int64)
    requires Usual(reg) && value >= 0
    ensures Passes(params, share, reg, tip, Deposit(hash, mainHash, value))
  {
    ElaPrecise(reg, ElaOutput(value));
  }

  // A fee that is only the wrap-around of what is missing

  function EnoughFee(params: V.Params): int64 {
    if params.minTransactionFee < 2 then 2 else params.minTransactionFee
  }

  /** Takes in `value` and puts out 2^64 more than it may, less the fee. */
  function Wrapping(params: V.Params, hash: Uint256, source: Outpoint, value: int64): Tx
    requires 0 < value && params.minTransactionFee <= value
  {
    Tx(hash, TransferAsset, 0, [source],
       [ElaOutput(0x7fff_ffff_ffff_ffff), ElaOutput(0x7fff_ffff_ffff_ffff), ElaOutput(value - EnoughFee(params) + 2)])
  }

  lemma WrappingShape(params: V.Params, share: int64 -> int64, reg: R.Registry, hash: Uint256, source: Outpoint, value: int64)
    requires Usual(reg) && 0 < value && params.minTransactionFee <= value
    ensures V.OutputsOk(params, share, Wrapping(params, hash, source, value))
    ensures V.PrecisionOk(reg.assets, Wrapping(params, hash, source, value))
    ensures OutWorth(V.ElaValue, Wrapping(params, hash, source, value)) == value - EnoughFee(params) + TWO_64
    ensures OutWorth(V.TokenValue, Wrapping(params, hash, source, value)) == 0
  {
    var outs := Wrapping(params, hash, source, value).outputs;
    SumOfThree(outs[0], outs[1], outs[2], V.ElaValue);
    SumOfThree(outs[0], outs[1], outs[2], V.TokenValue);
    forall i | 0 <= i < |outs| ensures V.OutputPrecise(reg.assets, outs[i]) {
      ElaPrecise(reg, outs[i]);
    }
  }

  /** Whatever the minimum fee is and whatever ELA is spent, this passes and
      creates 2^64 less the fee. */
  lemma FeeExample(params: V.Params, share: int64 -> int64, reg: R.Registry, tip: uint32, hash: Uint256, source: Outpoint)
    requires Usual(reg) && Funds(params, reg, tip, source)
    requires params.minTransactionFee <= OutputOf(reg.txs, source).value
    ensures
      var tx := Wrapping(params, hash, source, OutputOf(reg.txs, source).value);
      && Passes(params, share, reg, tip, tx)
      && Gain(V.ElaValue, reg.txs)(tx) == TWO_64 - EnoughFee(params) > 0
  {
    var value := OutputOf(reg.txs, source).value;
    var tx := Wrapping(params, hash, source, value);
    WrappingShape(params, share, reg, hash, source, value);
    SumOfOne(source, WorthAt(V.ElaValue, reg.txs));
    SumOfOne(source, WorthAt(V.TokenValue, reg.txs));
    WrapShift(EnoughFee(params), -1);
  }

  // A registration that pays its fee and puts out another token

  function Registering(hash: Uint256, asset: Asset, source: Outpoint, other: Uint256, n: nat): Tx {
    Tx(hash, RegisterAsset(asset, 1, V.ZERO_PROGRAM_HASH), 0, [source],
       [TokenOutput(asset.hash, V.TOKEN_UNIT), TokenOutput(other, n)])
  }

  /** An asset that may be registered, and another token, registered or not. */
  ghost predicate NewAsset(reg: R.Registry, asset: Asset, other: Uint256) {
    && V.WellFormed(asset) && MIN_PRECISION <= asset.precision <= 18
    && (forall h | h in reg.assets :: reg.assets[h].asset.name != asset.name)
    && asset.hash != ELA_ASSET_ID && asset.hash != V.EMPTY_HASH
    && other != ELA_ASSET_ID && other != V.EMPTY_HASH && other != asset.hash
  }

  /** It passes whatever `n` is, and `n` of the other token come out of nothing. */
  lemma RegistrationExample(params: V.Params, share: int64 -> int64, reg: R.Registry, tip: uint32, hash: Uint256, asset: Asset,
                            source: Outpoint, other: Uint256, n: nat)
    requires V.PrecisionsInRange(reg.assets) && Funds(params, reg, tip, source) && NewAsset(reg, asset, other)
    requires OutputOf(reg.txs, source).value >= V.MIN_REGISTER_ASSET_TX_FEE
    ensures Passes(params, share, reg, tip, Registering(hash, asset, source, other, n))
    ensures Gain(V.AssetValue(other), reg.txs)(Registering(hash, asset, source, other, n)) == n
  {
    var tx := Registering(hash, asset, source, other, n);
    SumOfOne(source, WorthAt(V.ElaValue, reg.txs));
    SumOfOne(source, WorthAt(V.AssetValue(other), reg.txs));
    SumOfTwo(tx.outputs[0], tx.outputs[1], V.ElaValue);
    SumOfTwo(tx.outputs[0], tx.outputs[1], V.AssetValue(asset.hash));
    SumOfTwo(tx.outputs[0], tx.outputs[1], V.AssetValue(other));
  }

  // A transfer that turns one token into another

  function Swapping(hash: Uint256, fee: Outpoint, paid: Outpoint, other: Uint256, n: nat): Tx {
    Tx(hash, TransferAsset, 0, [fee, paid], [TokenOutput(other, n)])
  }

  /** Amounts that the other token's precision allows. */
  ghost predicate Payable(reg: R.Registry, other: Uint256, n: int)
    requires V.PrecisionsInRange(reg.assets)
  {
    && other != ELA_ASSET_ID && other != V.EMPTY_HASH && other in reg.assets
    && n % D.Pow10(18 - reg.assets[other].asset.precision) == 0
  }

  lemma SwapSums(txs: Txs, hash: Uint256, fee: Outpoint, paid: Outpoint, other: Uint256)
    requires IsOutput(txs, fee) && OutputOf(txs, fee).assetID == ELA_ASSET_ID
    requires IsOutput(txs, paid) && OutputOf(txs, paid).assetID != ELA_ASSET_ID
    requires OutputOf(txs, paid).assetID != other && other != ELA_ASSET_ID && OutputOf(txs, paid).tokenValue > 0
    ensures
      var (token, n) := (OutputOf(txs, paid).assetID, OutputOf(txs, paid).tokenValue);
      var tx := Swapping(hash, fee, paid, other, n);
      && V.InputSum(V.ElaValue, txs, tx) - OutWorth(V.ElaValue, tx) == OutputOf(txs, fee).value
      && V.InputSum(V.TokenValue, txs, tx) == OutWorth(V.TokenValue, tx) == n
      && Gain(V.AssetValue(token), txs)(tx) == -n
      && Gain(V.AssetValue(other), txs)(tx) == n
  {
    var (token, n) := (OutputOf(txs, paid).assetID, OutputOf(txs, paid).tokenValue);
    var out := TokenOutput(other, n);
    SumOfTwo(fee, paid, WorthAt(V.ElaValue, txs));
    SumOfTwo(fee, paid, WorthAt(V.TokenValue, txs));
    SumOfTwo(fee, paid, WorthAt(V.AssetValue(token), txs));
    SumOfTwo(fee, paid, WorthAt(V.AssetValue(other), txs));
    SumOfOne(out, V.ElaValue);
    SumOfOne(out, V.TokenValue);
    SumOfOne(out, V.AssetValue(token));
    SumOfOne(out, V.AssetValue(other));
  }

  /** It takes in all of one token's output, puts out as much of another, and passes. */
  lemma SwapExample(params: V.Params, share: int64 -> int64, reg: R.Registry, tip: uint32, hash: Uint256,
                    fee: Outpoint, paid: Outpoint, other: Uint256)
    requires V.PrecisionsInRange(reg.assets) && Funds(params, reg, tip, fee)
    requires OutputOf(reg.txs, fee).value >= params.minTransactionFee
    requires V.ReferenceOk(params, reg.txs, tip, paid) && OutputOf(reg.txs, paid).assetID != ELA_ASSET_ID
    requires OutputOf(reg.txs, paid).assetID != other && Payable(reg, other, OutputOf(reg.txs, paid).tokenValue)
    ensures
      var (token, n) := (OutputOf(reg.txs, paid).assetID, OutputOf(reg.txs, paid).tokenValue);
      var tx := Swapping(hash, fee, paid, other, n);
      && Passes(params, share, reg, tip, tx)
      && Gain(V.AssetValue(token), reg.txs)(tx) == -n < 0
      && Gain(V.AssetValue(other), reg.txs)(tx) == n
  {
    SwapSums(reg.txs, hash, fee, paid, other);
  }

  // Blocks of a coinbase and one other transaction

  function Paired(height: uint32, coinbase: Tx, tx: Tx): Block {
    Block(height, [coinbase, tx])
  }

  /** The two are new to the store, and the store can record and spend them. */
  ghost predicate Pairable(db: Db, coinbase: Tx, tx: Tx) {
    && coinbase.hash !in db.reg.txs && tx.hash !in db.reg.txs && coinbase.hash != tx.hash
    && |coinbase.outputs| <= 0x1_0000 && |tx.outputs| <= 0x1_0000
    && coinbase.txType.CoinBase? && R.Recordable(tx) && Spendable(tx.Spends(), Unspent(db.reg.txs))
  }

  lemma StoreTwo(txs: Txs, height: uint32, a: Tx, b: Tx)
    ensures Store(txs, height, [a, b]) == txs[a.hash := TxEntry(a, height)][b.hash := TxEntry(b, height)]
  {
    assert [a, b][1..] == [b] && [b][1..] == [];
    var first := txs[a.hash := TxEntry(a, height)];
    assert Store(first, height, [b]) == first[b.hash := TxEntry(b, height)];
  }

  lemma PairStored(db: Db, height: uint32, coinbase: Tx, tx: Tx)
    requires Valid(db) && Pairable(db, coinbase, tx)
    ensures
      var b := Paired(height, coinbase, tx);
      && Fresh(db.reg.txs, b.txs) && BlockSpends(b.txs) == tx.Spends()
      && Persist(db, b).Ok? && Valid(Persist(db, b).value)
      && Persist(db, b).value.reg.txs == db.reg.txs[coinbase.hash := TxEntry(coinbase, height)][tx.hash := TxEntry(tx, height)]
  {
    var s := Paired(height, coinbase, tx).txs;
    assert s[1..] == [tx] && [tx][1..] == [];
    assert BlockSpends([tx]) == tx.Spends() + [];
    assert BlockSpends(s) == [] + BlockSpends([tx]);
    ChainDb.PersistExact(db, Paired(height, coinbase, tx));
    StoreTwo(db.reg.txs, height, coinbase, tx);
  }

  /** Only a registration changes the assets on record. */
  lemma PairRecords(r: R.Registry, height: uint32, coinbase: Tx, tx: Tx)
    requires coinbase.txType.CoinBase? && !tx.txType.RegisterAsset? && R.Recordable(tx)
    ensures R.PersistTransactions(r, height, [coinbase, tx]).Ok?
    ensures R.PersistTransactions(r, height, [coinbase, tx]).value.assets == r.assets
  {
    var first := R.PersistTx(r, height, coinbase).value;
    assert [coinbase, tx][1..] == [tx] && [tx][1..] == [];
    assert R.PersistTransactions(first, height, [tx]) == R.PersistTx(first, height, tx);
  }

  /** Only a registration changes the assets on record. */
  lemma PairAssets(db: Db, height: uint32, coinbase: Tx, tx: Tx)
    requires Valid(db) && Pairable(db, coinbase, tx) && !tx.txType.RegisterAsset?
    ensures
      var b := Paired(height, coinbase, tx);
      Persist(db, b).Ok? && Persist(db, b).value.reg.assets == db.reg.assets
  {
    PairStored(db, height, coinbase, tx);
    PairRecords(db.reg, height, coinbase, tx);
  }

  lemma OneBlockChain(genesis: Tx, b: Block)
    requires IsGenesis(genesis) && Fresh(InitDb(genesis).reg.txs, b.txs) && b.height > 0 && Persist(InitDb(genesis), b).Ok?
    ensures ChainOk(genesis, [b]) && Replay(genesis, [b]) == Persist(InitDb(genesis), b).value
  {
    assert Front([b]) == [] && Last([b]) == b;
    assert ChainOk(genesis, []) && Replay(genesis, []) == InitDb(genesis);
  }

  lemma TwoBlockChain(genesis: Tx, b: Block, b': Block)
    requires IsGenesis(genesis) && ChainOk(genesis, [b])
    requires Fresh(Replay(genesis, [b]).reg.txs, b'.txs) && b'.height > b.height && Persist(Replay(genesis, [b]), b').Ok?
    ensures ChainOk(genesis, [b, b']) && Replay(genesis, [b, b']) == Persist(Replay(genesis, [b]), b').value
  {
    assert Front([b, b']) == [b] && Last([b, b']) == b' && Last([b]) == b;
  }

  lemma OnePasses(params: V.Params, share: int64 -> int64, genesis: Tx, b: Block)
    requires IsGenesis(genesis)
    requires forall i | 0 <= i < |b.txs| :: Passes(params, share, InitDb(genesis).reg, 0, b.txs[i])
    ensures ChainPasses(params, share, genesis, [b])
  {
    assert Front([b]) == [] && Last([b]) == b;
    assert ChainPasses(params, share, genesis, []) && Replay(genesis, []) == InitDb(genesis) && TipHeight([]) == 0;
  }

  lemma TwoPass(params: V.Params, share: int64 -> int64, genesis: Tx, b: Block, b': Block)
    requires IsGenesis(genesis) && ChainPasses(params, share, genesis, [b])
    requires forall i | 0 <= i < |b'.txs| :: Passes(params, share, Replay(genesis, [b]).reg, b.height, b'.txs[i])
    ensures ChainPasses(params, share, genesis, [b, b'])
  {
    assert Front([b, b']) == [b] && Last([b, b']) == b' && TipHeight([b]) == b.height;
  }

  lemma PairPasses(params: V.Params, share: int64 -> int64, genesis: Tx, b: Block, height: uint32, coinbase: Tx, tx: Tx)
    requires IsGenesis(genesis) && ChainPasses(params, share, genesis, [b])
    requires Passes(params, share, Replay(genesis, [b]).reg, b.height, coinbase)
    requires Passes(params, share, Replay(genesis, [b]).reg, b.height, tx)
    ensures ChainPasses(params, share, genesis, [b, Paired(height, coinbase, tx)])
  {
    var s := Paired(height, coinbase, tx).txs;
    forall i | 0 <= i < |s| ensures Passes(params, share, Replay(genesis, [b]).reg, b.height, s[i]) {
      assert s[i] == coinbase || s[i] == tx;
    }
    TwoPass(params, share, genesis, b, Paired(height, coinbase, tx));
  }

  // A first block that brings in some ELA, and what can follow it

  /** A usual genesis, a share between nothing and the reward, and different hashes. */
  ghost predicate Setting(share: int64 -> int64, genesis: Tx, c: Uint256, d: Uint256, c': Uint256, t: Uint256) {
    && IsGenesis(genesis) && genesis.txType.asset.precision == 8 && ELA_ASSET_ID != V.EMPTY_HASH
    && (forall r: int64 :: 0 <= r ==> 0 <= share(r) <= r)
    && c != d && c != c' && c != t && d != c' && d != t && c' != t
    && c != ELA_ASSET_ID && d != ELA_ASSET_ID && c' != ELA_ASSET_ID && t != ELA_ASSET_ID
  }

  function Funding(params: V.Params, share: int64 -> int64, c: Uint256, d: Uint256, mainHash: Uint256, value: int64): Block {
    Paired(1, Reward(params, share, c, 0), Deposit(d, mainHash, value))
  }

  lemma InitUsual(genesis: Tx)
    requires IsGenesis(genesis) && genesis.txType.asset.precision == 8 && ELA_ASSET_ID != V.EMPTY_HASH
    ensures Usual(InitDb(genesis).reg) && Valid(InitDb(genesis))
  {
    InitValid(genesis);
  }

  lemma FundingStored(params: V.Params, share: int64 -> int64, genesis: Tx, c: Uint256, d: Uint256, mainHash: Uint256, value: int64)
    requires IsGenesis(genesis) && c != d && c != ELA_ASSET_ID && d != ELA_ASSET_ID
    ensures
      var b := Funding(params, share, c, d, mainHash, value);
      var db := Replay(genesis, [b]);
      && ChainOk(genesis, [b]) && Valid(db)
      && db.reg.assets == InitDb(genesis).reg.assets
      && db.reg.txs == InitDb(genesis).reg.txs[c := TxEntry(b.txs[0], 1)][d := TxEntry(b.txs[1], 1)]
  {
    var coinbase, deposit := Reward(params, share, c, 0), Deposit(d, mainHash, value);
    InitValid(genesis);
    assert deposit.Spends() == [];
    PairStored(InitDb(genesis), 1, coinbase, deposit);
    PairAssets(InitDb(genesis), 1, coinbase, deposit);
    OneBlockChain(genesis, Paired(1, coinbase, deposit));
  }

  lemma DepositUnspent(txs: Txs, d: Uint256, mainHash: Uint256, value: int64)
    requires d in txs && txs[d].tx == Deposit(d, mainHash, value)
    requires forall t | t in txs :: txs[t].tx.Spends() == []
    ensures Outpoint(d, 0) in Unspent(txs) && OutputOf(txs, Outpoint(d, 0)) == ElaOutput(value)
  {
  }

  lemma FundingTxs(genesis: Tx, coinbase: Tx, d: Uint256, mainHash: Uint256, value: int64, txs: Txs)
    requires IsGenesis(genesis) && coinbase.txType.CoinBase?
    requires coinbase.hash != d && coinbase.hash != ELA_ASSET_ID && d != ELA_ASSET_ID
    requires txs == InitDb(genesis).reg.txs[coinbase.hash := TxEntry(coinbase, 1)][d := TxEntry(Deposit(d, mainHash, value), 1)]
    ensures txs.Keys == {ELA_ASSET_ID, coinbase.hash, d}
    ensures Outpoint(d, 0) in Unspent(txs) && OutputOf(txs, Outpoint(d, 0)) == ElaOutput(value)
    ensures !txs[d].tx.txType.CoinBase?
  {
    assert txs[ELA_ASSET_ID].tx == genesis && txs[coinbase.hash].tx == coinbase;
    DepositUnspent(txs, d, mainHash, value);
  }

  /** After block `b` everything has passed and the deposit `d` can be spent. */
  ghost predicate Ready(params: V.Params, share: int64 -> int64, genesis: Tx, b: Block, c: Uint256, d: Uint256, value: int64)
    requires IsGenesis(genesis)
  {
    && b.height == 1 && ChainOk(genesis, [b]) && ChainPasses(params, share, genesis, [b])
    && ReadyState(params, genesis, Replay(genesis, [b]), c, d, value)
  }

  ghost predicate ReadyState(params: V.Params, genesis: Tx, db: Db, c: Uint256, d: Uint256, value: int64)
    requires IsGenesis(genesis)
  {
    && Valid(db) && Usual(db.reg) && db.reg.txs.Keys == {ELA_ASSET_ID, c, d}
    && Outpoint(d, 0) in Unspent(db.reg.txs) && Funds(params, db.reg, 1, Outpoint(d, 0))
    && OutputOf(db.reg.txs, Outpoint(d, 0)) == ElaOutput(value)
    && db.reg.assets == InitDb(genesis).reg.assets
  }

  lemma FundingReady(params: V.Params, share: int64 -> int64, genesis: Tx, c: Uint256, d: Uint256, mainHash: Uint256, value: int64)
    requires IsGenesis(genesis) && genesis.txType.asset.precision == 8 && ELA_ASSET_ID != V.EMPTY_HASH
    requires c != d && c != ELA_ASSET_ID && d != ELA_ASSET_ID && value > 0
    ensures
      var b := Funding(params, share, c, d, mainHash, value);
      ChainOk(genesis, [b]) && ReadyState(params, genesis, Replay(genesis, [b]), c, d, value)
  {
    var b := Funding(params, share, c, d, mainHash, value);
    FundingStored(params, share, genesis, c, d, mainHash, value);
    FundingTxs(genesis, Reward(params, share, c, 0), d, mainHash, value, Replay(genesis, [b]).reg.txs);
    InitUsual(genesis);
  }

  lemma FundingPasses(params: V.Params, share: int64 -> int64, genesis: Tx, c: Uint256, d: Uint256, mainHash: Uint256, value: int64)
    requires IsGenesis(genesis) && genesis.txType.asset.precision == 8 && ELA_ASSET_ID != V.EMPTY_HASH
    requires value > 0 && share(0) == 0
    ensures ChainPasses(params, share, genesis, [Funding(params, share, c, d, mainHash, value)])
  {
    InitUsual(genesis);
    RewardPasses(params, share, InitDb(genesis).reg, 0, c, 0);
    DepositPasses(params, share, InitDb(genesis).reg, 0, d, mainHash, value);
    OnePasses(params, share, genesis, Funding(params, share, c, d, mainHash, value));
  }

  lemma Funded(params: V.Params, share: int64 -> int64, genesis: Tx, c: Uint256, d: Uint256, mainHash: Uint256, value: int64)
    requires IsGenesis(genesis) && genesis.txType.asset.precision == 8 && ELA_ASSET_ID != V.EMPTY_HASH
    requires c != d && c != ELA_ASSET_ID && d != ELA_ASSET_ID && value > 0 && share(0) == 0
    ensures Ready(params, share, genesis, Funding(params, share, c, d, mainHash, value), c, d, value)
  {
    FundingReady(params, share, genesis, c, d, mainHash, value);
    FundingPasses(params, share, genesis, c, d, mainHash, value);
  }

  lemma SecondStored(genesis: Tx, b: Block, coinbase: Tx, tx: Tx)
    requires IsGenesis(genesis) && b.height == 1 && ChainOk(genesis, [b])
    requires Valid(Replay(genesis, [b])) && Pairable(Replay(genesis, [b]), coinbase, tx)
    ensures
      var b' := Paired(2, coinbase, tx);
      && ChainOk(genesis, [b, b'])
      && Persisted(Replay(genesis, [b]), b', Replay(genesis, [b, b']))
      && BlockSpends(b'.txs) == tx.Spends()
  {
    var b' := Paired(2, coinbase, tx);
    PairStored(Replay(genesis, [b]), 2, coinbase, tx);
    TwoBlockChain(genesis, b, b');
    SameAsItself(Replay(genesis, [b, b']));
  }

  lemma SecondBlock(params: V.Params, share: int64 -> int64, genesis: Tx, b: Block, coinbase: Tx, tx: Tx)
    requires IsGenesis(genesis) && b.height == 1 && ChainOk(genesis, [b]) && ChainPasses(params, share, genesis, [b])
    requires Valid(Replay(genesis, [b])) && Pairable(Replay(genesis, [b]), coinbase, tx)
    requires Passes(params, share, Replay(genesis, [b]).reg, 1, coinbase) && Passes(params, share, Replay(genesis, [b]).reg, 1, tx)
    ensures
      var b' := Paired(2, coinbase, tx);
      && ChainOk(genesis, [b, b']) && ChainPasses(params, share, genesis, [b, b'])
      && Persisted(Replay(genesis, [b]), b', Replay(genesis, [b, b']))
      && BlockSpends(b'.txs) == tx.Spends()
  {
    SecondStored(genesis, b, coinbase, tx);
    PairPasses(params, share, genesis, b, 2, coinbase, tx);
  }

  lemma SpendPairable(db: Db, c: Uint256, d: Uint256, coinbase: Tx, tx: Tx)
    requires db.reg.txs.Keys == {ELA_ASSET_ID, c, d} && Outpoint(d, 0) in Unspent(db.reg.txs)
    requires coinbase.txType.CoinBase? && |coinbase.outputs| <= 0x1_0000 && coinbase.hash !in {ELA_ASSET_ID, c, d, tx.hash}
    requires tx.inputs == [Outpoint(d, 0)] && |tx.outputs| <= 0x1_0000 && tx.hash !in {ELA_ASSET_ID, c, d}
    requires !tx.txType.CoinBase? && R.Recordable(tx)
    ensures Pairable(db, coinbase, tx) && tx.Spends() == [Outpoint(d, 0)]
  {
  }

  /** A second block that spends the deposit and passes too. */
  lemma Follows(params: V.Params, share: int64 -> int64, genesis: Tx, b: Block, c: Uint256, d: Uint256, value: int64,
                c': Uint256, fee: int64, tx: Tx)
    requires Setting(share, genesis, c, d, c', tx.hash) && fee >= 0
    requires Ready(params, share, genesis, b, c, d, value)
    requires tx.inputs == [Outpoint(d, 0)] && |tx.outputs| <= 0x1_0000 && !tx.txType.CoinBase? && R.Recordable(tx)
    requires Passes(params, share, Replay(genesis, [b]).reg, 1, tx)
    ensures
      var b' := Paired(2, Reward(params, share, c', fee), tx);
      && ChainOk(genesis, [b, b']) && ChainPasses(params, share, genesis, [b, b'])
      && Persisted(Replay(genesis, [b]), b', Replay(genesis, [b, b']))
      && BlockSpends(b'.txs) == [Outpoint(d, 0)]
  {
    var coinbase, db := Reward(params, share, c', fee), Replay(genesis, [b]);
    SpendPairable(db, c, d, coinbase, tx);
    RewardPasses(params, share, db.reg, 1, c', fee);
    SecondBlock(params, share, genesis, b, coinbase, tx);
  }

  // A rollback, as the line is written

  function Fee(params: V.Params): int64 {
    if params.minTransactionFee < 0 then 0 else params.minTransactionFee
  }

  function Moving(hash: Uint256, source: Outpoint, left: int64): Tx {
    Tx(hash, TransferAsset, 0, [source], [ElaOutput(left)])
  }

  lemma MovingPasses(params: V.Params, share: int64 -> int64, reg: R.Registry, tip: uint32, hash: Uint256, source: Outpoint, left: int64)
    requires Usual(reg) && Funds(params, reg, tip, source)
    requires left >= 0 && OutputOf(reg.txs, source).value == left + Fee(params)
    ensures Passes(params, share, reg, tip, Moving(hash, source, left))
  {
    var tx, out := Moving(hash, source, left), ElaOutput(left);
    SumOfOne(source, WorthAt(V.ElaValue, reg.txs));
    SumOfOne(source, WorthAt(V.TokenValue, reg.txs));
    SumOfOne(out, V.ElaValue);
    SumOfOne(out, V.TokenValue);
    ElaPrecise(reg, out);
    assert V.BalanceOk(params, reg.txs, tx);
  }

  lemma AsWrittenFails(before: Db, b: Block, after: Db)
    requires Persisted(before, b, after) && BlockSpends(b.txs) != []
    ensures Rollback(AsWritten, after, b).Ok? && !SameDb(before, Rollback(AsWritten, after, b).value)
  {
    RoundTripExact(AsWritten, before, b, after);
  }

  function MovingBlock(params: V.Params, share: int64 -> int64, c: Uint256, t: Uint256, source: Outpoint, left: int64): Block {
    Paired(2, Reward(params, share, c, Fee(params)), Moving(t, source, left))
  }

  lemma MovingFollows(params: V.Params, share: int64 -> int64, genesis: Tx, b: Block, c: Uint256, d: Uint256, value: int64,
                      c': Uint256, t: Uint256, left: int64)
    requires Setting(share, genesis, c, d, c', t) && left >= 0 && value == left + Fee(params)
    requires Ready(params, share, genesis, b, c, d, value)
    ensures
      var b' := MovingBlock(params, share, c', t, Outpoint(d, 0), left);
      && ChainOk(genesis, [b, b']) && ChainPasses(params, share, genesis, [b, b'])
      && Persisted(Replay(genesis, [b]), b', Replay(genesis, [b, b']))
      && BlockSpends(b'.txs) == [Outpoint(d, 0)]
  {
    MovingPasses(params, share, Replay(genesis, [b]).reg, 1, t, Outpoint(d, 0), left);
    Follows(params, share, genesis, b, c, d, value, c', Fee(params), Moving(t, Outpoint(d, 0), left));
  }

  /** A deposit, then a transfer of it less the fee: all of it passes, and rolling the
      transfer back as written does not restore the store. */
  lemma AsWrittenExample(params: V.Params, share: int64 -> int64, genesis: Tx, c: Uint256, d: Uint256, mainHash: Uint256,
                         value: int64, c': Uint256, t: Uint256, left: int64)
    requires Setting(share, genesis, c, d, c', t) && left >= 0 && value == left + Fee(params) > 0
    ensures
      var b := Funding(params, share, c, d, mainHash, value);
      var b' := MovingBlock(params, share, c', t, Outpoint(d, 0), left);
      && ChainOk(genesis, [b, b']) && ChainPasses(params, share, genesis, [b, b'])
      && var back := Rollback(AsWritten, Replay(genesis, [b, b']), b');
         back.Ok? && !SameDb(Replay(genesis, [b]), back.value)
  {
    var b := Funding(params, share, c, d, mainHash, value);
    var b' := MovingBlock(params, share, c', t, Outpoint(d, 0), left);
    Funded(params, share, genesis, c, d, mainHash, value);
    MovingFollows(params, share, genesis, b, c, d, value, c', t, left);
    AsWrittenFails(Replay(genesis, [b]), b', Replay(genesis, [b, b']));
  }

  // A chain with tokens never issued

  lemma TwoBlockSum(genesis: Tx, b: Block, b': Block, f: (Txs, Tx) -> int)
    requires IsGenesis(genesis) && |b.txs| == |b'.txs| == 2
    ensures ChainSum(genesis, [b, b'], f) ==
              f(InitDb(genesis).reg.txs, b.txs[0]) + f(InitDb(genesis).reg.txs, b.txs[1])
              + f(Replay(genesis, [b]).reg.txs, b'.txs[0]) + f(Replay(genesis, [b]).reg.txs, b'.txs[1])
  {
    var txs, txs' := InitDb(genesis).reg.txs, Replay(genesis, [b]).reg.txs;
    assert Front([b, b']) == [b] && Last([b, b']) == b' && Front([b]) == [] && Last([b]) == b;
    assert ChainSum(genesis, [], f) == 0 && Replay(genesis, []) == InitDb(genesis);
    assert b.txs == [b.txs[0], b.txs[1]] && b'.txs == [b'.txs[0], b'.txs[1]];
    SumOfTwo(b.txs[0], b.txs[1], On(f, txs));
    SumOfTwo(b'.txs[0], b'.txs[1], On(f, txs'));
    assert ChainSum(genesis, [b], f) == SumOf(b.txs, On(f, txs));
  }

  function RegisteringBlock(params: V.Params, share: int64 -> int64, c: Uint256, t: Uint256, asset: Asset, source: Outpoint, other: Uint256, n: nat): Block {
    Paired(2, Reward(params, share, c, V.MIN_REGISTER_ASSET_TX_FEE), Registering(t, asset, source, other, n))
  }

  lemma UnissuedSums(params: V.Params, share: int64 -> int64, genesis: Tx, b: Block, c: Uint256, d: Uint256, mainHash: Uint256, value: int64,
                     b': Block, c': Uint256, t: Uint256, asset: Asset, other: Uint256, n: nat)
    requires IsGenesis(genesis) && other != ELA_ASSET_ID && other != asset.hash
    requires b == Funding(params, share, c, d, mainHash, value)
    requires b' == RegisteringBlock(params, share, c', t, asset, Outpoint(d, 0), other, n)
    requires
      var txs := Replay(genesis, [b]).reg.txs;
      IsOutput(txs, Outpoint(d, 0)) && OutputOf(txs, Outpoint(d, 0)).assetID == ELA_ASSET_ID
    ensures ChainSum(genesis, [b, b'], IssuedOf(other)) == 0
    ensures ChainSum(genesis, [b, b'], Consumed(V.AssetValue(other))) == 0
    ensures ChainSum(genesis, [b, b'], Unchecked(other)) == n
  {
    TwoBlockSum(genesis, b, b', IssuedOf(other));
    TwoBlockSum(genesis, b, b', Consumed(V.AssetValue(other)));
    TwoBlockSum(genesis, b, b', Unchecked(other));
    SumOfTwo(b.txs[0].outputs[0], b.txs[0].outputs[1], V.AssetValue(other));
    SumOfTwo(b'.txs[0].outputs[0], b'.txs[0].outputs[1], V.AssetValue(other));
    SumOfTwo(b'.txs[1].outputs[0], b'.txs[1].outputs[1], V.AssetValue(other));
    SumOfOne(Outpoint(d, 0), WorthAt(V.AssetValue(other), Replay(genesis, [b]).reg.txs));
    assert Unchecked(other)(Replay(genesis, [b]).reg.txs, b'.txs[1]) == OutWorth(V.AssetValue(other), b'.txs[1]) == n;
  }

  lemma RegisteringFollows(params: V.Params, share: int64 -> int64, genesis: Tx, b: Block, c: Uint256, d: Uint256,
                           c': Uint256, t: Uint256, asset: Asset, other: Uint256, n: nat)
    requires Setting(share, genesis, c, d, c', t) && NewAsset(InitDb(genesis).reg, asset, other) && asset.name != "ELA"
    requires Ready(params, share, genesis, b, c, d, V.MIN_REGISTER_ASSET_TX_FEE)
    ensures
      var chain := [b, RegisteringBlock(params, share, c', t, asset, Outpoint(d, 0), other, n)];
      ChainOk(genesis, chain) && ChainPasses(params, share, genesis, chain)
  {
    var tx := Registering(t, asset, Outpoint(d, 0), other, n);
    RegistrationExample(params, share, Replay(genesis, [b]).reg, 1, t, asset, Outpoint(d, 0), other, n);
    Follows(params, share, genesis, b, c, d, V.MIN_REGISTER_ASSET_TX_FEE, c', V.MIN_REGISTER_ASSET_TX_FEE, tx);
  }

  lemma PassingSupply(params: V.Params, share: int64 -> int64, genesis: Tx, chain: seq<Block>, asset: Uint256)
    requires IsGenesis(genesis) && ChainOk(genesis, chain) && ChainPasses(params, share, genesis, chain)
    ensures Total(V.AssetValue(asset), Replay(genesis, chain).reg.txs)
            == ChainSum(genesis, chain, IssuedOf(asset)) - ChainSum(genesis, chain, Consumed(V.AssetValue(asset)))
               + ChainSum(genesis, chain, Unchecked(asset))
  {
    PassingAmounts(params, share, genesis, chain);
    AssetSupplyExact(params, share, genesis, chain, asset);
  }

  /** A two-block chain that passes every rule and holds any number of a token
      that was never registered. */
  lemma UnissuedExample(params: V.Params, share: int64 -> int64, genesis: Tx, c: Uint256, d: Uint256, mainHash: Uint256,
                        c': Uint256, t: Uint256, asset: Asset, other: Uint256, n: nat)
    requires Setting(share, genesis, c, d, c', t) && NewAsset(InitDb(genesis).reg, asset, other) && asset.name != "ELA"
    ensures
      var b := Funding(params, share, c, d, mainHash, V.MIN_REGISTER_ASSET_TX_FEE);
      var chain := [b, RegisteringBlock(params, share, c', t, asset, Outpoint(d, 0), other, n)];
      && ChainOk(genesis, chain) && ChainPasses(params, share, genesis, chain)
      && ChainSum(genesis, chain, IssuedOf(other)) == 0
      && Total(V.AssetValue(other), Replay(genesis, chain).reg.txs) == n
  {
    var fee := V.MIN_REGISTER_ASSET_TX_FEE;
    var b, b' := Funding(params, share, c, d, mainHash, fee), RegisteringBlock(params, share, c', t, asset, Outpoint(d, 0), other, n);
    Funded(params, share, genesis, c, d, mainHash, fee);
    RegisteringFollows(params, share, genesis, b, c, d, c', t, asset, other, n);
    UnissuedTotal(params, share, genesis, b, c, d, mainHash, b', c', t, asset, other, n);
  }

  lemma UnissuedTotal(params: V.Params, share: int64 -> int64, genesis: Tx, b: Block, c: Uint256, d: Uint256, mainHash: Uint256,
                      b': Block, c': Uint256, t: Uint256, asset: Asset, other: Uint256, n: nat)
    requires IsGenesis(genesis) && other != ELA_ASSET_ID && other != asset.hash
    requires b == Funding(params, share, c, d, mainHash, V.MIN_REGISTER_ASSET_TX_FEE)
    requires b' == RegisteringBlock(params, share, c', t, asset, Outpoint(d, 0), other, n)
    requires Ready(params, share, genesis, b, c, d, V.MIN_REGISTER_ASSET_TX_FEE)
    requires ChainOk(genesis, [b, b']) && ChainPasses(params, share, genesis, [b, b'])
    ensures ChainSum(genesis, [b, b'], IssuedOf(other)) == 0
    ensures Total(V.AssetValue(other), Replay(genesis, [b, b']).reg.txs) == n
  {
    UnissuedSums(params, share, genesis, b, c, d, mainHash, V.MIN_REGISTER_ASSET_TX_FEE, b', c', t, asset, other, n);
    PassingSupply(params, share, genesis, [b, b'], other);
  }

  // A coinbase spent before it exists in true heights

  /** A coinbase locked one block ahead counts as mature for every parameter. */
  lemma MaturityExample(params: V.Params, txs: Txs, currentHeight: uint32, o: Outpoint)
    requires IsOutput(txs, o) && txs[o.txid].tx.txType.CoinBase?
    requires OutputOf(txs, o).assetID == ELA_ASSET_ID && OutputOf(txs, o).value > 0
    requires txs[o.txid].tx.lockTime == currentHeight + 1
    ensures V.ReferenceOk(params, txs, currentHeight, o)
    ensures !(txs[o.txid].tx.lockTime + params.coinbaseMaturity <= currentHeight)
  {
    assert V.Confirmations(currentHeight, txs[o.txid].tx.lockTime) == 0xffff_ffff;
  }

  // A main chain hash recorded twice

  function RechargeBlock(height: uint32, hash: Uint256, mainHash: Uint256): Block {
    Block(height, [Tx(hash, RechargeToSideChain(Some(mainHash)), 0, [], [ElaOutput(1)])])
  }

  lemma RechargeAccepted(db: Db, height: uint32, hash: Uint256, mainHash: Uint256)
    requires Valid(db) && hash !in db.reg.txs
    ensures
      var b := RechargeBlock(height, hash, mainHash);
      && Fresh(db.reg.txs, b.txs)
      && R.MainHashes(b.txs) == {mainHash}
      && Persist(db, b).Ok? && Valid(Persist(db, b).value)
      && Persist(db, b).value.reg.txs == db.reg.txs[hash := TxEntry(b.txs[0], height)]
      && Persist(db, b).value.reg.mainchain == db.reg.mainchain + {mainHash}
  {
    var b := RechargeBlock(height, hash, mainHash);
    assert b.txs[1..] == [] && BlockSpends(b.txs) == [];
    assert b.txs[0].txType.RechargeToSideChain?;
    assert R.MainHashes(b.txs) == {mainHash};
    ChainDb.PersistExact(db, b);
    R.PersistExact(db.reg, height, b.txs);
  }

  /** Two accepted recharges of one main chain hash: in either mode, rolling the
      second back also loses the record of the first. */
  lemma RecordExample(mode: RestoredHash, genesis: Tx, first: Uint256, second: Uint256, mainHash: Uint256)
    requires IsGenesis(genesis) && first != ELA_ASSET_ID && second != ELA_ASSET_ID && first != second
    ensures Persist(InitDb(genesis), RechargeBlock(1, first, mainHash)).Ok?
    ensures
      var db, b := Persist(InitDb(genesis), RechargeBlock(1, first, mainHash)).value, RechargeBlock(2, second, mainHash);
      && mainHash in db.reg.mainchain
      && Persist(db, b).Ok?
      && var back := Rollback(mode, Persist(db, b).value, b);
         back.Ok? && !SameDb(db, back.value) && mainHash !in back.value.reg.mainchain
  {
    InitValid(genesis);
    RechargeAccepted(InitDb(genesis), 1, first, mainHash);
    var db, b := Persist(InitDb(genesis), RechargeBlock(1, first, mainHash)).value, RechargeBlock(2, second, mainHash);
    RecordLost(mode, db, second, mainHash);
  }

  lemma RecordLost(mode: RestoredHash, db: Db, hash: Uint256, mainHash: Uint256)
    requires Valid(db) && hash !in db.reg.txs && mainHash in db.reg.mainchain
    ensures
      var b := RechargeBlock(2, hash, mainHash);
      && Persist(db, b).Ok?
      && var back := Rollback(mode, Persist(db, b).value, b);
         back.Ok? && !SameDb(db, back.value) && mainHash !in back.value.reg.mainchain
  {
    var b := RechargeBlock(2, hash, mainHash);
    RechargeAccepted(db, 2, hash, mainHash);
    SameAsItself(Persist(db, b).value);
    RecordedTwice(mode, db, b, Persist(db, b).value, mainHash);
  }

  /** Rolling back a block with a main chain hash that was already on record. */
  lemma RecordedTwice(mode: RestoredHash, before: Db, b: Block, after: Db, mainHash: Uint256)
    requires Persisted(before, b, after) && mainHash in before.reg.mainchain && mainHash in R.MainHashes(b.txs)
    ensures
      var back := Rollback(mode, after, b);
      back.Ok? && !SameDb(before, back.value) && mainHash !in back.value.reg.mainchain
  {
    RoundTripExact(mode, before, b, after);
    PersistedAfter(before, b, after);
    RollbackDeletes(mode, after, b);
  }

  lemma RollbackDeletes(mode: RestoredHash, db: Db, b: Block)
    requires Rollback(mode, db, b).Ok? && forall n | 0 <= n < |b.txs| :: R.Recordable(b.txs[n]) && b.txs[n].hash != ELA_ASSET_ID
    ensures Rollback(mode, db, b).value.reg.mainchain == db.reg.mainchain - R.MainHashes(b.txs)
  {
    R.RollbackExact(db.reg, b.txs);
  }
}
