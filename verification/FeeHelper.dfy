/** Block assembly: which pool transactions go into a block, and how their fees
    are split between the coinbase's two outputs. */
module FeeHelper {
  import opened Bytes
  import opened Types
  import opened Ledger
  import opened Sums
  import opened Conservation
  import opened Validator

  /** What assembly asks of the rest of the node: transaction sizes and finality,
      the fee of a transaction if it can be computed, the block limits, and the
      truncated product with 0.3. */
  datatype Config = Config(
    size: Tx -> nat,
    finalized: Tx -> bool,
    fee: Tx -> Option<int64>,
    maxBlockSize: nat,
    maxTxPerBlock: nat,
    share: int64 -> int64)
  {
    predicate Eligible(tx: Tx) {
      finalized(tx) && fee(tx).Some?
    }

    function FeeOf(tx: Tx): int {
      match fee(tx)
      case Some(f) => f
      case None => 0
    }

    function FeeFunction(): Tx -> int {
      (tx: Tx) => FeeOf(tx)
    }

    function SizeFunction(): Tx -> int {
      (tx: Tx) => size(tx)
    }

    /** The eligible ones among the first n transactions, in their order. */
    function EligibleIn(txs: seq<Tx>, n: nat): (r: seq<Tx>)
      requires n <= |txs|
      ensures |r| <= n
    {
      if n == 0 then []
      else if Eligible(txs[n - 1]) then EligibleIn(txs, n - 1) + [txs[n - 1]]
      else EligibleIn(txs, n - 1)
    }

    /** The budgets still allow looking at the transaction after the first n:
        every transaction looked at counts towards the size, chosen or not. */
    ghost predicate Admits(txs: seq<Tx>, coinbaseSize: nat, n: nat) {
      && n < |txs|
      && coinbaseSize + SumOf(txs[..n + 1], SizeFunction()) <= maxBlockSize
      && 1 + |EligibleIn(txs, n)| < maxTxPerBlock
    }

    /** The loop looks at exactly the first n transactions. */
    ghost predicate StopsAt(txs: seq<Tx>, coinbaseSize: nat, n: nat) {
      && n <= |txs|
      && (forall m | 0 <= m < n :: Admits(txs, coinbaseSize, m))
      && !Admits(txs, coinbaseSize, n)
    }
  }

  function WithRewards(coinbase: Tx, first: int64, second: int64): Tx
    requires |coinbase.outputs| >= 2
  {
    coinbase.(outputs := coinbase.outputs[0 := coinbase.outputs[0].(value := first)][1 := coinbase.outputs[1].(value := second)])
  }

  class MsgBlock {
    var transactions: seq<Tx>

    constructor (coinbase: Tx)
      ensures transactions == [coinbase]
    {
      transactions := [coinbase];
    }
  }

  method Consider(cfg: Config, msgBlock: MsgBlock, tx: Tx, ghost chosen: seq<Tx>, totalFee: int64)
      returns (totalFee': int64, taken: bool)
    requires totalFee == Wrap64(SumOf(chosen, cfg.FeeFunction()))
    modifies msgBlock
    ensures taken <==> cfg.Eligible(tx)
    ensures msgBlock.transactions == old(msgBlock.transactions) + if taken then [tx] else []
    ensures totalFee' == Wrap64(SumOf(if taken then chosen + [tx] else chosen, cfg.FeeFunction()))
  {
    totalFee', taken := totalFee, false;
    if !cfg.finalized(tx) {
      return;
    }
    match cfg.fee(tx) {
      case None =>
      case Some(fee) =>
        msgBlock.transactions := msgBlock.transactions + [tx];
        FeeStep(cfg, chosen, tx);
        totalFee' := Add64(totalFee, fee);
        taken := true;
    }
  }

  method SelectTransactions(cfg: Config, msgBlock: MsgBlock, coinbaseSize: nat, txsByFeeDesc: seq<Tx>)
      returns (totalFee: int64, n: nat)
    modifies msgBlock
    ensures cfg.StopsAt(txsByFeeDesc, coinbaseSize, n)
    ensures msgBlock.transactions == old(msgBlock.transactions) + cfg.EligibleIn(txsByFeeDesc, n)
    ensures totalFee == Wrap64(SumOf(cfg.EligibleIn(txsByFeeDesc, n), cfg.FeeFunction()))
  {
    var totalTxsSize := coinbaseSize;
    var txCount := 1;
    totalFee := 0;
    n := 0;
    assert txsByFeeDesc[..0] == [];
    while n < |txsByFeeDesc|
      invariant n <= |txsByFeeDesc|
      invariant forall m | 0 <= m < n :: cfg.Admits(txsByFeeDesc, coinbaseSize, m)
      invariant totalTxsSize == coinbaseSize + SumOf(txsByFeeDesc[..n], cfg.SizeFunction())
      invariant txCount == 1 + |cfg.EligibleIn(txsByFeeDesc, n)|
      invariant msgBlock.transactions == old(msgBlock.transactions) + cfg.EligibleIn(txsByFeeDesc, n)
      invariant totalFee == Wrap64(SumOf(cfg.EligibleIn(txsByFeeDesc, n), cfg.FeeFunction()))
    {
      var tx := txsByFeeDesc[n];
      SumOfSnoc(txsByFeeDesc, cfg.SizeFunction(), n);
      totalTxsSize := totalTxsSize + cfg.size(tx);
      if totalTxsSize > cfg.maxBlockSize {
        break;
      }
      if txCount >= cfg.maxTxPerBlock {
        break;
      }
      assert cfg.Admits(txsByFeeDesc, coinbaseSize, n);
      var taken;
      totalFee, taken := Consider(cfg, msgBlock, tx, cfg.EligibleIn(txsByFeeDesc, n), totalFee);
      if taken {
        txCount := txCount + 1;
      }
      n := n + 1;
    }
  }

  lemma FeeStep(cfg: Config, chosen: seq<Tx>, tx: Tx)
    ensures Wrap64(SumOf(chosen + [tx], cfg.FeeFunction())) == Wrap64(Wrap64(SumOf(chosen, cfg.FeeFunction())) + cfg.FeeOf(tx))
  {
    SumOfConcat(chosen, [tx], cfg.FeeFunction());
    assert SumOf([tx], cfg.FeeFunction()) == cfg.FeeOf(tx);
    WrapAdd(SumOf(chosen, cfg.FeeFunction()), cfg.FeeOf(tx));
  }

  /** `txsByFeeDesc` is the pool in the order its sort leaves it. */
  method GenerateBlockTransactions(cfg: Config, msgBlock: MsgBlock, coinbaseSize: nat, txsByFeeDesc: seq<Tx>)
      returns (ghost n: nat)
    requires |msgBlock.transactions| >= 1 && |msgBlock.transactions[0].outputs| >= 2
    modifies msgBlock
    ensures cfg.StopsAt(txsByFeeDesc, coinbaseSize, n)
    ensures
      var chosen := cfg.EligibleIn(txsByFeeDesc, n);
      var reward := Wrap64(SumOf(chosen, cfg.FeeFunction()));
      msgBlock.transactions ==
        [WithRewards(old(msgBlock.transactions)[0], cfg.share(reward), Sub64(reward, cfg.share(reward)))]
        + old(msgBlock.transactions)[1..] + chosen
  {
    var totalFee, looked := SelectTransactions(cfg, msgBlock, coinbaseSize, txsByFeeDesc);
    n := looked;
    var reward := totalFee;
    var rewardFoundation := cfg.share(reward);
    var coinbase := msgBlock.transactions[0];
    assert coinbase == old(msgBlock.transactions)[0];
    msgBlock.transactions := msgBlock.transactions[0 := WithRewards(coinbase, rewardFoundation, Sub64(reward, rewardFoundation))];
  }

  // What the selection guarantees

  /** Strictly increasing positions of the chosen transactions. */
  ghost function ChosenAt(cfg: Config, txs: seq<Tx>, n: nat): seq<nat>
    requires n <= |txs|
  {
    if n == 0 then []
    else if cfg.Eligible(txs[n - 1]) then ChosenAt(cfg, txs, n - 1) + [n - 1]
    else ChosenAt(cfg, txs, n - 1)
  }

  /** The choice is a subsequence of the sorted pool: of those before the stop, all
      that are final and whose fee can be computed, and no others. */
  lemma {:induction false} ChosenIsSubsequence(cfg: Config, txs: seq<Tx>, n: nat)
    requires n <= |txs|
    ensures
      var at, chosen := ChosenAt(cfg, txs, n), cfg.EligibleIn(txs, n);
      && |at| == |chosen|
      && (forall i | 0 <= i < |at| :: at[i] < n && chosen[i] == txs[at[i]])
      && (forall i | 0 <= i < |at| :: cfg.finalized(chosen[i]) && cfg.fee(chosen[i]).Some?)
      && (forall i, j | 0 <= i < j < |at| :: at[i] < at[j])
      && (forall p | 0 <= p < n && cfg.finalized(txs[p]) && cfg.fee(txs[p]).Some? :: p in at)
  {
    if n > 0 {
      ChosenIsSubsequence(cfg, txs, n - 1);
    }
  }

  /** What is summed up: sizes, and the fees that can be computed. */
  lemma MeasuresAre(cfg: Config, tx: Tx)
    ensures cfg.SizeFunction()(tx) == cfg.size(tx)
    ensures cfg.fee(tx).Some? ==> cfg.FeeFunction()(tx) == cfg.fee(tx).value
  {
  }

  /** The next transaction fits with all before it, and so does its number. */
  ghost predicate Fits(cfg: Config, txs: seq<Tx>, coinbaseSize: nat, n: nat)
    requires n < |txs|
  {
    && coinbaseSize + SumOf(txs[..n + 1], cfg.SizeFunction()) <= cfg.maxBlockSize
    && 2 + |ChosenAt(cfg, txs, n)| <= cfg.maxTxPerBlock
  }

  /** It stops at the end of the pool, or before the first transaction that would
      take all sizes so far over the limit, or when the block has its number. */
  lemma StopRule(cfg: Config, txs: seq<Tx>, coinbaseSize: nat, n: nat)
    requires n <= |txs|
    ensures cfg.StopsAt(txs, coinbaseSize, n) <==>
              && (forall m | 0 <= m < n :: Fits(cfg, txs, coinbaseSize, m))
              && (n == |txs| || !Fits(cfg, txs, coinbaseSize, n))
  {
    forall m | 0 <= m < |txs| ensures Fits(cfg, txs, coinbaseSize, m) <==> cfg.Admits(txs, coinbaseSize, m) {
      ChosenIsSubsequence(cfg, txs, m);
    }
  }

  lemma {:induction false} ChosenSize(cfg: Config, txs: seq<Tx>, n: nat)
    requires n <= |txs|
    ensures SumOf(cfg.EligibleIn(txs, n), cfg.SizeFunction()) <= SumOf(txs[..n], cfg.SizeFunction())
  {
    if n == 0 {
      assert txs[..0] == [];
    } else {
      ChosenSize(cfg, txs, n - 1);
      SumOfSnoc(txs, cfg.SizeFunction(), n - 1);
      var last := txs[n - 1];
      SumOfConcat(cfg.EligibleIn(txs, n - 1), [last], cfg.SizeFunction());
      assert SumOf([last], cfg.SizeFunction()) == cfg.size(last);
    }
  }

  /** The block keeps both budgets: exactly when the coinbase alone fits, its size
      with the chosen transactions fits too, and the count including the coinbase
      stays within the limit. */
  lemma BudgetsKept(cfg: Config, txs: seq<Tx>, coinbaseSize: nat, n: nat)
    requires cfg.StopsAt(txs, coinbaseSize, n) && cfg.maxTxPerBlock >= 1
    ensures coinbaseSize <= cfg.maxBlockSize <==>
              coinbaseSize + SumOf(cfg.EligibleIn(txs, n), cfg.SizeFunction()) <= cfg.maxBlockSize
    ensures 1 + |cfg.EligibleIn(txs, n)| <= cfg.maxTxPerBlock
  {
    ChosenSize(cfg, txs, n);
    SizesNonNegative(cfg, cfg.EligibleIn(txs, n));
    if n > 0 {
      assert cfg.Admits(txs, coinbaseSize, n - 1);
    }
  }

  lemma {:induction false} SizesNonNegative(cfg: Config, s: seq<Tx>)
    ensures SumOf(s, cfg.SizeFunction()) >= 0
    decreases s
  {
    if s != [] {
      SizesNonNegative(cfg, s[1..]);
    }
  }

  // The fee split

  lemma SplitAddsUp(reward: int64, part: int64)
    ensures Wrap64(part + Sub64(reward, part)) == reward
  {
    var q := WrapQuotient(reward - part);
    WrapShift(reward, q);
  }

  /** With the foundation's share in the first output, the assembled coinbase passes
      the foundation check exactly when the second output is someone else's or the
      share is no more than the reward. */
  lemma AssembledCoinbasePasses(params: Params, cfg: Config, coinbase: Tx, reward: int64)
    requires coinbase.txType.CoinBase? && |coinbase.outputs| == 2
    requires coinbase.outputs[0].programHash == params.foundation
    ensures OutputsOk(params, cfg.share, WithRewards(coinbase, cfg.share(reward), Sub64(reward, cfg.share(reward))))
            <==> coinbase.outputs[1].programHash != params.foundation || cfg.share(reward) <= reward
  {
    var part := cfg.share(reward);
    var rest := Sub64(reward, part);
    var outs := WithRewards(coinbase, part, rest).outputs;
    SplitAddsUp(reward, part);
    TwoOutputs(outs, AnyValue);
    TwoOutputs(outs, FoundationValue(params));
    assert FoundationValue(params)(outs[0]) == part;
    assert FoundationValue(params)(outs[1]) == if coinbase.outputs[1].programHash == params.foundation then rest else 0;
  }

  lemma TwoOutputs(outs: seq<Output>, w: Weight)
    requires |outs| == 2
    ensures SumOf(outs, w) == w(outs[0]) + w(outs[1])
  {
    assert outs[1..][0] == outs[1] && outs[1..][1..] == [];
    assert SumOf(outs[1..], w) == w(outs[1]) + SumOf(outs[1..][1..], w);
  }

  /** The chosen transactions' fees are their ELA inputs less their ELA outputs. */
  ghost predicate FeesAreBalances(cfg: Config, txs: Txs, chosen: seq<Tx>) {
    forall i | 0 <= i < |chosen| :: cfg.FeeOf(chosen[i]) == InWorth(ElaValue, txs, chosen[i]) - OutWorth(ElaValue, chosen[i])
  }

  lemma {:induction false} GainsAreFees(cfg: Config, txs: Txs, chosen: seq<Tx>)
    requires FeesAreBalances(cfg, txs, chosen)
    ensures SumOf(chosen, Gain(ElaValue, txs)) == -SumOf(chosen, cfg.FeeFunction())
    decreases chosen
  {
    if chosen != [] {
      assert forall i | 0 <= i < |chosen| - 1 :: chosen[1..][i] == chosen[i + 1];
      GainsAreFees(cfg, txs, chosen[1..]);
    }
  }

  /** A truncated share of an amount lies between zero and the amount. */
  predicate BetweenZeroAnd(part: int, amount: int) {
    0 <= part <= amount || amount <= part <= 0
  }

  function AssembledBlock(cfg: Config, coinbase: Tx, chosen: seq<Tx>): seq<Tx>
    requires |coinbase.outputs| >= 2
  {
    var reward := Wrap64(SumOf(chosen, cfg.FeeFunction()));
    [WithRewards(coinbase, cfg.share(reward), Sub64(reward, cfg.share(reward)))] + chosen
  }

  /** Persisting an assembled block changes the total ELA in circulation by what
      int64 makes of the fee sum, so it leaves the total as it was exactly when
      that sum fits. */
  lemma ElaConserved(cfg: Config, txs: Txs, height: uint32, coinbase: Tx, chosen: seq<Tx>)
    requires coinbase.txType.CoinBase? && |coinbase.outputs| == 2
    requires coinbase.outputs[0].assetID == ELA_ASSET_ID && coinbase.outputs[1].assetID == ELA_ASSET_ID
    requires FeesAreBalances(cfg, txs, chosen)
    requires var reward := Wrap64(SumOf(chosen, cfg.FeeFunction())); BetweenZeroAnd(cfg.share(reward), reward)
    requires
      var block := AssembledBlock(cfg, coinbase, chosen);
      Sound(txs) && Fresh(txs, block) && Spendable(BlockSpends(block), Unspent(txs))
    ensures
      var fees := SumOf(chosen, cfg.FeeFunction());
      var after := Total(ElaValue, Store(txs, height, AssembledBlock(cfg, coinbase, chosen)));
      && after == Total(ElaValue, txs) + Wrap64(fees) - fees
      && (after == Total(ElaValue, txs) <==> -0x8000_0000_0000_0000 <= fees < 0x8000_0000_0000_0000)
  {
    var reward: int64 := Wrap64(SumOf(chosen, cfg.FeeFunction()));
    var paid := WithRewards(coinbase, cfg.share(reward), Sub64(reward, cfg.share(reward)));
    BlockMovesTotal(ElaValue, txs, height, [paid] + chosen);
    SumOfConcat([paid], chosen, Gain(ElaValue, txs));
    assert SumOf([paid], Gain(ElaValue, txs)) == Gain(ElaValue, txs)(paid);
    TwoOutputs(paid.outputs, ElaValue);
    assert InWorth(ElaValue, txs, paid) == 0;
    GainsAreFees(cfg, txs, chosen);
  }
}
