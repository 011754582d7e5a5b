/** The rules a transaction must pass before it may enter a block. Error texts
    are not modelled: a check returns whether the transaction passes. */
module Validator {
  import opened Bytes
  import opened Types
  import opened Ledger
  import opened Sums
  import opened Conservation
  import D = Decimal

  /** Chain parameters. The valid address prefixes come from a library. */
  datatype Params = Params(
    foundation: Uint168,
    minTransactionFee: int64,
    minCrossChainTxFee: int64,
    coinbaseMaturity: uint32,
    addressPrefixes: set<byte>)

  const MIN_REGISTER_ASSET_TX_FEE: int64 := 1000000000
  const TOKEN_UNIT: int := 1000000000000000000
  /** The all-zero identifiers; the rules only compare with them. */
  const EMPTY_HASH: Uint256

  const ZERO_PROGRAM_HASH: Uint168

  function ElaValue(out: Output): int {
    if out.assetID == ELA_ASSET_ID then out.value else 0
  }

  function TokenValue(out: Output): int {
    if out.assetID == ELA_ASSET_ID then 0 else out.tokenValue
  }

  lemma WrapAdd(a: int, b: int)
    ensures Wrap64(Wrap64(a) + b) == Wrap64(a + b)
  {
    var q := WrapQuotient(a);
    WrapShift(a + b, q);
  }

  // checkTransactionBalance

  function MinFee(params: Params, tx: Tx): int64 {
    match tx.txType
    case TransferCrossChainAsset => params.minCrossChainTxFee
    case RechargeToSideChain(_) => params.minCrossChainTxFee
    case RegisterAsset(_, _, _) => MIN_REGISTER_ASSET_TX_FEE
    case _ => params.minTransactionFee
  }

  function InputSum(w: Weight, txs: Txs, tx: Tx): int {
    SumOf(tx.inputs, WorthAt(w, txs))
  }

  /** All references resolve, the ELA fee is enough in int64 arithmetic, and,
      except for registrations, the tokens put out are the tokens taken in. */
  ghost predicate BalanceOk(params: Params, txs: Txs, tx: Tx) {
    && (forall o | o in tx.inputs :: IsOutput(txs, o))
    && Wrap64(InputSum(ElaValue, txs, tx) - OutWorth(ElaValue, tx)) >= MinFee(params, tx)
    && (tx.txType.RegisterAsset? || InputSum(TokenValue, txs, tx) == OutWorth(TokenValue, tx))
  }

  method GetTxReference(txs: Txs, tx: Tx) returns (reference: Option<map<int, Output>>)
    ensures reference.Some? <==> forall o | o in tx.inputs :: IsOutput(txs, o)
    ensures reference.Some? ==> reference.value.Keys == Positions(|tx.inputs|)
    ensures reference.Some? ==>
              forall j | 0 <= j < |tx.inputs| :: reference.value[j] == OutputOf(txs, tx.inputs[j])
  {
    var refs: map<int, Output> := map[];
    for j := 0 to |tx.inputs|
      invariant refs.Keys == Positions(j)
      invariant forall i | 0 <= i < j :: IsOutput(txs, tx.inputs[i]) && refs[i] == OutputOf(txs, tx.inputs[i])
    {
      var o := tx.inputs[j];
      assert o in tx.inputs;
      if o.txid !in txs {
        return None;
      }
      if o.index >= |txs[o.txid].tx.outputs| {
        return None;
      }
      refs := refs[j := txs[o.txid].tx.outputs[o.index]];
    }
    return Some(refs);
  }

  ghost function WorthOfInput(w: Weight, txs: Txs, tx: Tx): int -> int {
    (j: int) => if 0 <= j < |tx.inputs| then WorthAt(w, txs)(tx.inputs[j]) else 0
  }

  ghost function PartialInputSum(w: Weight, txs: Txs, tx: Tx, done: set<int>): int {
    Sum(done, WorthOfInput(w, txs, tx))
  }

  lemma PartialStep(w: Weight, txs: Txs, tx: Tx, done: set<int>, j: int)
    requires 0 <= j < |tx.inputs| && IsOutput(txs, tx.inputs[j]) && j !in done
    ensures PartialInputSum(w, txs, tx, done + {j}) == PartialInputSum(w, txs, tx, done) + w(OutputOf(txs, tx.inputs[j]))
  {
    WorthIs(w, txs, tx.inputs[j]);
    SumInsert(done, WorthOfInput(w, txs, tx), j);
  }

  lemma PartialWhole(w: Weight, txs: Txs, tx: Tx)
    ensures PartialInputSum(w, txs, tx, Positions(|tx.inputs|)) == InputSum(w, txs, tx)
  {
    SumOfPositions(tx.inputs, WorthAt(w, txs), WorthOfInput(w, txs, tx));
  }

  method AddAmount(output: Output, ela: int64, token: int, ghost sum: int) returns (ela': int64, token': int)
    requires ela == Wrap64(sum)
    ensures ela' == Wrap64(sum + ElaValue(output)) && token' == token + TokenValue(output)
  {
    ela', token' := ela, token;
    WrapAdd(sum, ElaValue(output));
    if output.assetID == ELA_ASSET_ID {
      ela' := Add64(ela, output.value);
    } else {
      token' := token + output.tokenValue;
    }
  }

  method AddInput(txs: Txs, tx: Tx, output: Output, j: int, ghost done: set<int>, ela: int64, token: int)
      returns (ela': int64, token': int)
    requires 0 <= j < |tx.inputs| && IsOutput(txs, tx.inputs[j]) && output == OutputOf(txs, tx.inputs[j]) && j !in done
    requires ela == Wrap64(PartialInputSum(ElaValue, txs, tx, done)) && token == PartialInputSum(TokenValue, txs, tx, done)
    ensures ela' == Wrap64(PartialInputSum(ElaValue, txs, tx, done + {j}))
    ensures token' == PartialInputSum(TokenValue, txs, tx, done + {j})
  {
    PartialStep(ElaValue, txs, tx, done, j);
    PartialStep(TokenValue, txs, tx, done, j);
    ela', token' := AddAmount(output, ela, token, PartialInputSum(ElaValue, txs, tx, done));
  }

  /** Sums the referenced outputs in whatever order the map gives them. */
  method SumReferences(txs: Txs, tx: Tx, reference: map<int, Output>) returns (elaInput: int64, tokenInput: int)
    requires forall o | o in tx.inputs :: IsOutput(txs, o)
    requires reference.Keys == Positions(|tx.inputs|)
    requires forall j | 0 <= j < |tx.inputs| :: reference[j] == OutputOf(txs, tx.inputs[j])
    ensures elaInput == Wrap64(InputSum(ElaValue, txs, tx))
    ensures tokenInput == InputSum(TokenValue, txs, tx)
  {
    elaInput, tokenInput := 0, 0;
    var todo := reference.Keys;
    ghost var done: set<int> := {};
    while todo != {}
      invariant todo !! done && todo + done == reference.Keys
      invariant elaInput == Wrap64(PartialInputSum(ElaValue, txs, tx, done))
      invariant tokenInput == PartialInputSum(TokenValue, txs, tx, done)
    {
      var j :| j in todo;
      assert tx.inputs[j] in tx.inputs;
      elaInput, tokenInput := AddInput(txs, tx, reference[j], j, done, elaInput, tokenInput);
      todo, done := todo - {j}, done + {j};
    }
    assert done == Positions(|tx.inputs|);
    PartialWhole(ElaValue, txs, tx);
    PartialWhole(TokenValue, txs, tx);
  }

  lemma SumOfSnoc<T>(s: seq<T>, f: T -> int, n: nat)
    requires n < |s|
    ensures SumOf(s[..n + 1], f) == SumOf(s[..n], f) + f(s[n])
  {
    assert s[..n + 1] == s[..n] + [s[n]];
    SumOfConcat(s[..n], [s[n]], f);
    assert SumOf([s[n]], f) == f(s[n]);
  }

  method SumOutputs(tx: Tx) returns (elaOutput: int64, tokenOutput: int)
    ensures elaOutput == Wrap64(OutWorth(ElaValue, tx))
    ensures tokenOutput == OutWorth(TokenValue, tx)
  {
    elaOutput, tokenOutput := 0, 0;
    for i := 0 to |tx.outputs|
      invariant elaOutput == Wrap64(SumOf(tx.outputs[..i], ElaValue))
      invariant tokenOutput == SumOf(tx.outputs[..i], TokenValue)
    {
      SumOfSnoc(tx.outputs, ElaValue, i);
      SumOfSnoc(tx.outputs, TokenValue, i);
      elaOutput, tokenOutput := AddAmount(tx.outputs[i], elaOutput, tokenOutput, SumOf(tx.outputs[..i], ElaValue));
    }
    assert tx.outputs[..|tx.outputs|] == tx.outputs;
  }

  method CheckTransactionBalance(params: Params, txs: Txs, tx: Tx) returns (ok: bool)
    ensures ok <==> BalanceOk(params, txs, tx)
  {
    var reference := GetTxReference(txs, tx);
    if reference.None? {
      return false;
    }
    var elaInput, tokenInput := SumReferences(txs, tx, reference.value);
    var elaOutput, tokenOutput := SumOutputs(tx);
    var elaBalance := Sub64(elaInput, elaOutput);
    WrapDifference(InputSum(ElaValue, txs, tx), OutWorth(ElaValue, tx));
    if elaBalance < MinFee(params, tx) {
      return false;
    }
    var tokenBalance := tokenInput - tokenOutput;
    return tx.txType.RegisterAsset? || tokenBalance == 0;
  }

  lemma WrapDifference(a: int, b: int)
    ensures Wrap64(Wrap64(a) - Wrap64(b)) == Wrap64(a - b)
  {
    var p := WrapQuotient(a);
    var q := WrapQuotient(b);
    assert Wrap64(a) - Wrap64(b) == (a - b) + (p - q) * TWO_64;
    WrapShift(a - b, p - q);
  }

  /** What the int64 fee check means for the true amounts: a passing transaction
      really pays its fee exactly when its outputs do not exceed its inputs by
      more than 2^63. */
  lemma FeeExact(params: Params, txs: Txs, tx: Tx)
    requires BalanceOk(params, txs, tx) && MinFee(params, tx) >= 0
    ensures
      var balance := InputSum(ElaValue, txs, tx) - OutWorth(ElaValue, tx);
      balance >= MinFee(params, tx) <==> -balance <= 0x8000_0000_0000_0000
  {
  }

  /** All references resolve and, where tokens must balance, they do. */
  ghost predicate Balanced(txs: Txs, tx: Tx) {
    && (forall o | o in tx.inputs :: IsOutput(txs, o))
    && (tx.txType.RegisterAsset? || InputSum(TokenValue, txs, tx) == OutWorth(TokenValue, tx))
  }

  /** What is asked of a balanced transaction, kind by kind: the cross chain fee of
      transfers to and recharges from the main chain, ten ELA of registrations, the
      ordinary fee of all others. */
  lemma {:induction false} FeeRule(params: Params, txs: Txs, tx: Tx)
    requires Balanced(txs, tx)
    ensures
      var paid := Wrap64(InputSum(ElaValue, txs, tx) - OutWorth(ElaValue, tx));
      && (tx.txType.TransferCrossChainAsset? || tx.txType.RechargeToSideChain? ==>
            (BalanceOk(params, txs, tx) <==> paid >= params.minCrossChainTxFee))
      && (tx.txType.RegisterAsset? ==> (BalanceOk(params, txs, tx) <==> paid >= 10 * 100000000))
      && (tx.txType.TransferAsset? || tx.txType.Record? || tx.txType.CoinBase? ==>
            (BalanceOk(params, txs, tx) <==> paid >= params.minTransactionFee))
  {
  }

  lemma UnbalancedFails(params: Params, txs: Txs, tx: Tx)
    ensures BalanceOk(params, txs, tx) ==> Balanced(txs, tx)
  {
  }

  // checkTransactionOutput

  predicate CheckOutputProgramHash(params: Params, programHash: Uint168) {
    programHash == ZERO_PROGRAM_HASH || programHash.bytes[0] in params.addressPrefixes
  }

  function AnyValue(out: Output): int {
    out.value
  }

  function FoundationValue(params: Params): Weight {
    (out: Output) => if out.programHash == params.foundation then out.value else 0
  }

  /** ELA outputs carry a value and no tokens, token outputs the reverse. */
  predicate OutputShape(out: Output) {
    if out.assetID == ELA_ASSET_ID then out.value >= 0 && out.tokenValue == 0
    else out.assetID != EMPTY_HASH && out.tokenValue >= 0 && out.value == 0
  }

  predicate OutputOk(params: Params, tx: Tx, out: Output) {
    && out.assetID != EMPTY_HASH
    && OutputShape(out)
    && CheckOutputProgramHash(params, out.programHash)
    && (tx.txType.RechargeToSideChain? || tx.txType.TransferCrossChainAsset? ==> out.assetID == ELA_ASSET_ID)
  }

  /** `share` stands for the truncated product with 0.3. */
  ghost predicate OutputsOk(params: Params, share: int64 -> int64, tx: Tx) {
    if tx.txType.CoinBase? then
      && |tx.outputs| >= 2
      && Wrap64(SumOf(tx.outputs, FoundationValue(params))) >= share(Wrap64(SumOf(tx.outputs, AnyValue)))
    else
      |tx.outputs| >= 1 && forall i | 0 <= i < |tx.outputs| :: OutputOk(params, tx, tx.outputs[i])
  }

  method SumRewards(params: Params, tx: Tx) returns (totalReward: int64, foundationReward: int64)
    ensures totalReward == Wrap64(SumOf(tx.outputs, AnyValue))
    ensures foundationReward == Wrap64(SumOf(tx.outputs, FoundationValue(params)))
  {
    totalReward, foundationReward := 0, 0;
    for i := 0 to |tx.outputs|
      invariant totalReward == Wrap64(SumOf(tx.outputs[..i], AnyValue))
      invariant foundationReward == Wrap64(SumOf(tx.outputs[..i], FoundationValue(params)))
    {
      SumOfSnoc(tx.outputs, AnyValue, i);
      SumOfSnoc(tx.outputs, FoundationValue(params), i);
      WrapAdd(SumOf(tx.outputs[..i], AnyValue), tx.outputs[i].value);
      WrapAdd(SumOf(tx.outputs[..i], FoundationValue(params)), tx.outputs[i].value);
      totalReward := Add64(totalReward, tx.outputs[i].value);
      if tx.outputs[i].programHash == params.foundation {
        foundationReward := Add64(foundationReward, tx.outputs[i].value);
      }
    }
    assert tx.outputs[..|tx.outputs|] == tx.outputs;
  }

  method CheckTransactionOutput(params: Params, share: int64 -> int64, tx: Tx) returns (ok: bool)
    ensures ok <==> OutputsOk(params, share, tx)
  {
    if tx.txType.CoinBase? {
      if |tx.outputs| < 2 {
        return false;
      }
      var totalReward, foundationReward := SumRewards(params, tx);
      return foundationReward >= share(totalReward);
    }
    if |tx.outputs| < 1 {
      return false;
    }
    for i := 0 to |tx.outputs|
      invariant forall j | 0 <= j < i :: OutputOk(params, tx, tx.outputs[j])
    {
      ok := CheckOutput(params, tx, tx.outputs[i]);
      if !ok {
        return false;
      }
    }
    return true;
  }

  method CheckOutput(params: Params, tx: Tx, output: Output) returns (ok: bool)
    ensures ok <==> OutputOk(params, tx, output)
  {
    if output.assetID == EMPTY_HASH {
      return false;
    } else if output.assetID == ELA_ASSET_ID {
      if output.value < 0 || output.tokenValue != 0 {
        return false;
      }
    } else {
      if tx.txType.RechargeToSideChain? || tx.txType.TransferCrossChainAsset? {
        return false;
      }
      if output.tokenValue < 0 || output.value != 0 {
        return false;
      }
    }
    return CheckOutputProgramHash(params, output.programHash);
  }

  /** An output that anybody may put out: to nobody or to an address with a known
      prefix, ELA without tokens or a token without ELA, and nothing negative. */
  ghost predicate Payable(params: Params, out: Output) {
    && (out.programHash == ZERO_PROGRAM_HASH || exists prefix | prefix in params.addressPrefixes :: [prefix] <= out.programHash.bytes)
    && out.assetID != EMPTY_HASH && out.value >= 0 && out.tokenValue >= 0
    && (out.value != 0 ==> out.assetID == ELA_ASSET_ID) && (out.tokenValue != 0 ==> out.assetID != ELA_ASSET_ID)
  }

  lemma PayableExact(params: Params, tx: Tx, out: Output)
    ensures OutputOk(params, tx, out) <==>
              Payable(params, out)
              && (out.assetID != ELA_ASSET_ID ==> !tx.txType.RechargeToSideChain? && !tx.txType.TransferCrossChainAsset?)
  {
    assert [out.programHash.bytes[0]] <= out.programHash.bytes;
    forall prefix | prefix in params.addressPrefixes && [prefix] <= out.programHash.bytes ensures prefix == out.programHash.bytes[0] {
      assert [prefix][0] == out.programHash.bytes[0];
    }
  }

  /** The rule on outputs: a coinbase has two or more and gives the foundation its
      share; any other transaction has some, all payable, and tokens do not cross
      chains. */
  lemma OutputRule(params: Params, share: int64 -> int64, tx: Tx)
    ensures tx.txType.CoinBase? && |tx.outputs| < 2 ==> !OutputsOk(params, share, tx)
    ensures tx.outputs == [] ==> !OutputsOk(params, share, tx)
    ensures !tx.txType.CoinBase? && tx.outputs != [] ==>
              (OutputsOk(params, share, tx) <==>
                && (forall out | out in tx.outputs :: Payable(params, out))
                && (tx.txType.RechargeToSideChain? || tx.txType.TransferCrossChainAsset? ==>
                      forall out | out in tx.outputs :: out.assetID == ELA_ASSET_ID))
  {
    forall out ensures OutputOk(params, tx, out) <==>
                         Payable(params, out)
                         && (out.assetID != ELA_ASSET_ID ==> !tx.txType.RechargeToSideChain? && !tx.txType.TransferCrossChainAsset?)
    {
      PayableExact(params, tx, out);
    }
    assert forall i | 0 <= i < |tx.outputs| :: tx.outputs[i] in tx.outputs;
  }

  // checkReferencedOutput

  /** Blocks a coinbase has matured, in uint32 arithmetic. */
  function Confirmations(currentHeight: uint32, lockHeight: uint32): uint32 {
    ToUint32(currentHeight as int - lockHeight as int)
  }

  predicate ReferenceOk(params: Params, txs: Txs, currentHeight: uint32, o: Outpoint) {
    && IsOutput(txs, o)
    && (if OutputOf(txs, o).assetID == ELA_ASSET_ID then OutputOf(txs, o).value > 0
        else OutputOf(txs, o).tokenValue > 0)
    && var refer := txs[o.txid].tx;
       (refer.txType.CoinBase? ==> Confirmations(currentHeight, refer.lockTime) >= params.coinbaseMaturity)
  }

  method CheckReferencedOutput(params: Params, txs: Txs, currentHeight: uint32, tx: Tx) returns (ok: bool)
    ensures ok <==> forall j | 0 <= j < |tx.inputs| :: ReferenceOk(params, txs, currentHeight, tx.inputs[j])
  {
    for j := 0 to |tx.inputs|
      invariant forall i | 0 <= i < j :: ReferenceOk(params, txs, currentHeight, tx.inputs[i])
    {
      var o := tx.inputs[j];
      if o.txid !in txs || o.index >= |txs[o.txid].tx.outputs| {
        return false;
      }
      var refer := txs[o.txid].tx;
      var referOut := refer.outputs[o.index];
      if referOut.assetID == ELA_ASSET_ID {
        if referOut.value <= 0 {
          return false;
        }
      } else {
        if referOut.tokenValue <= 0 {
          return false;
        }
      }
      if refer.txType.CoinBase? {
        if Confirmations(currentHeight, refer.lockTime) < params.coinbaseMaturity {
          return false;
        }
      }
    }
    return true;
  }

  /** A passing coinbase reference is mature in true heights exactly when the
      coinbase's lock time is not above the current height, or maturity is nothing. */
  lemma MaturityExact(params: Params, txs: Txs, currentHeight: uint32, o: Outpoint)
    requires ReferenceOk(params, txs, currentHeight, o) && txs[o.txid].tx.txType.CoinBase?
    requires params.coinbaseMaturity > 0
    ensures txs[o.txid].tx.lockTime + params.coinbaseMaturity <= currentHeight <==> txs[o.txid].tx.lockTime <= currentHeight
  {
    var d: int := currentHeight as int - txs[o.txid].tx.lockTime as int;
    if d >= 0 {
      assert ToUint32(d) == d;
    }
  }

  /** The rule on references, in true heights: an output with something in it, and
      for a coinbase either it has matured or its lock time is so far above the
      current height that the difference wraps to the maturity or more. */
  lemma ReferenceRule(params: Params, txs: Txs, currentHeight: uint32, o: Outpoint)
    requires IsOutput(txs, o)
    ensures
      var refer, out := txs[o.txid].tx, OutputOf(txs, o);
      ReferenceOk(params, txs, currentHeight, o) <==>
        && (out.assetID == ELA_ASSET_ID ==> out.value > 0)
        && (out.assetID != ELA_ASSET_ID ==> out.tokenValue > 0)
        && (refer.txType.CoinBase? ==>
              if refer.lockTime <= currentHeight then refer.lockTime + params.coinbaseMaturity <= currentHeight
              else refer.lockTime - currentHeight <= 0x1_0000_0000 - params.coinbaseMaturity)
  {
    var d: int := currentHeight as int - txs[o.txid].tx.lockTime as int;
    if d >= 0 {
      assert ToUint32(d) == d;
    } else {
      assert ToUint32(d) == d + 0x1_0000_0000;
    }
  }

  // checkRegisterAssetTransaction

  predicate NameChar(c: char) {
    !(c < '0' || ('9' < c < 'A') || ('Z' < c < 'a') || 'z' < c)
  }

  predicate PrintableChar(c: char) {
    ' ' <= c <= '~'
  }

  function AssetValue(asset: Uint256): Weight {
    (out: Output) => if out.assetID == asset then out.tokenValue else 0
  }

  /** A new well-formed name, a positive amount, and exactly the amount put out
      to the controller in the new asset. */
  ghost predicate RegistrationOk(assets: map<Uint256, AssetInfo>, tx: Tx)
    requires tx.txType.RegisterAsset?
  {
    && tx.txType.amount > 0
    && WellFormed(tx.txType.asset)
    && (forall h | h in assets :: assets[h].asset.name != tx.txType.asset.name)
    && ToController(tx, tx.txType.asset.hash, tx.txType.controller)
    && OutWorth(AssetValue(tx.txType.asset.hash), tx) == tx.txType.amount * TOKEN_UNIT
  }

  ghost predicate WellFormed(asset: Asset) {
    && asset.name != ""
    && (forall i | 0 <= i < |asset.name| :: NameChar(asset.name[i]))
    && (forall i | 0 <= i < |asset.description| :: PrintableChar(asset.description[i]))
  }

  ghost predicate ToController(tx: Tx, asset: Uint256, controller: Uint168) {
    forall i | 0 <= i < |tx.outputs| :: tx.outputs[i].assetID == asset ==> tx.outputs[i].programHash == controller
  }

  method SumRegistered(tx: Tx, asset: Uint256, controller: Uint168) returns (total: Option<int>)
    ensures total.Some? <==> ToController(tx, asset, controller)
    ensures total.Some? ==> total.value == OutWorth(AssetValue(asset), tx)
  {
    var totalToken := 0;
    for i := 0 to |tx.outputs|
      invariant forall j | 0 <= j < i :: tx.outputs[j].assetID == asset ==> tx.outputs[j].programHash == controller
      invariant totalToken == SumOf(tx.outputs[..i], AssetValue(asset))
    {
      SumOfSnoc(tx.outputs, AssetValue(asset), i);
      var output := tx.outputs[i];
      if output.assetID == asset {
        if output.programHash != controller {
          return None;
        }
        totalToken := totalToken + output.tokenValue;
      }
    }
    assert tx.outputs[..|tx.outputs|] == tx.outputs;
    return Some(totalToken);
  }

  method CheckRegisterAssetTransaction(assets: map<Uint256, AssetInfo>, tx: Tx) returns (ok: bool)
    requires tx.txType.RegisterAsset?
    ensures ok <==> RegistrationOk(assets, tx)
  {
    var asset := tx.txType.asset;
    if tx.txType.amount <= 0 {
      return false;
    }
    if |asset.name| == 0 {
      return false;
    }
    for i := 0 to |asset.name|
      invariant forall j | 0 <= j < i :: NameChar(asset.name[j])
    {
      var c := asset.name[i];
      if c < '0' || ('9' < c && c < 'A') || ('Z' < c && c < 'a') || c > 'z' {
        return false;
      }
    }
    for i := 0 to |asset.description|
      invariant forall j | 0 <= j < i :: PrintableChar(asset.description[j])
    {
      var c := asset.description[i];
      if ' ' > c || c > '~' {
        return false;
      }
    }
    var todo := assets.Keys;
    while todo != {}
      invariant todo <= assets.Keys
      invariant forall h | h in assets && h !in todo :: assets[h].asset.name != asset.name
    {
      var h :| h in todo;
      if assets[h].asset.name == asset.name {
        return false;
      }
      todo := todo - {h};
    }
    var totalToken := SumRegistered(tx, asset.hash, tx.txType.controller);
    if totalToken.None? {
      return false;
    }
    var regAmount := tx.txType.amount * TOKEN_UNIT;
    return totalToken.value == regAmount;
  }

  predicate LetterOrDigit(c: char) {
    'a' <= c <= 'z' || 'A' <= c <= 'Z' || '0' <= c <= '9'
  }

  lemma TokenUnitIs()
    ensures D.Pow10(18) == TOKEN_UNIT
  {
    assert D.Pow10(6) == 1000000;
    D.Pow10Split(6, 6);
    D.Pow10Split(12, 6);
  }

  /** A registration's text rules, who it pays, and how the amount it pays prints. */
  lemma RegistrationRule(assets: map<Uint256, AssetInfo>, tx: Tx)
    requires tx.txType.RegisterAsset?
    ensures
      var asset, issue := tx.txType.asset, OutWorth(AssetValue(tx.txType.asset.hash), tx);
      RegistrationOk(assets, tx) <==>
        && tx.txType.amount > 0 && asset.name != ""
        && (forall c | c in asset.name :: LetterOrDigit(c))
        && (forall c | c in asset.description :: 32 <= c as int <= 126)
        && (forall h | h in assets :: assets[h].asset.name != asset.name)
        && (forall out | out in tx.outputs && out.assetID == asset.hash :: out.programHash == tx.txType.controller)
        && issue > 0 && D.ValueString(issue) == D.Digits(tx.txType.amount) + "." + "000000000000000000"
  {
    var asset := tx.txType.asset;
    TextRules(asset);
    assert forall i | 0 <= i < |tx.outputs| :: tx.outputs[i] in tx.outputs;
    if tx.txType.amount > 0 {
      IssuePrints(tx.txType.amount, OutWorth(AssetValue(asset.hash), tx));
    }
  }

  lemma TextRules(asset: Asset)
    ensures WellFormed(asset) <==>
              && asset.name != ""
              && (forall c | c in asset.name :: LetterOrDigit(c))
              && (forall c | c in asset.description :: 32 <= c as int <= 126)
  {
    assert forall i | 0 <= i < |asset.name| :: asset.name[i] in asset.name;
    assert forall i | 0 <= i < |asset.description| :: asset.description[i] in asset.description;
  }

  lemma IssuePrints(amount: nat, issue: int)
    requires amount > 0
    ensures issue == amount * TOKEN_UNIT <==>
              issue > 0 && D.ValueString(issue) == D.Digits(amount) + "." + "000000000000000000"
  {
    TokenUnitIs();
    D.ZerosText();
    D.WholePrints(amount, 18);
    if issue > 0 && D.ValueString(issue) == D.ValueString(amount * TOKEN_UNIT) {
      D.ValueStringInjective(issue, amount * TOKEN_UNIT);
    }
  }

  // checkAssetPrecision

  /** Every output's asset is registered and its amount fits the asset's
      precision: a multiple of 10^(8-p) for ELA and of 10^(18-p) for a token. */
  ghost predicate PrecisionOk(assets: map<Uint256, AssetInfo>, tx: Tx)
    requires PrecisionsInRange(assets)
  {
    tx.txType.RegisterAsset? || forall i | 0 <= i < |tx.outputs| :: OutputPrecise(assets, tx.outputs[i])
  }

  ghost predicate OutputPrecise(assets: map<Uint256, AssetInfo>, out: Output)
    requires PrecisionsInRange(assets)
  {
    && out.assetID in assets
    && var p := assets[out.assetID].asset.precision;
       if out.assetID == ELA_ASSET_ID then out.value % D.Pow10(8 - p) == 0
       else out.tokenValue % D.Pow10(18 - p) == 0
  }

  /** What genesis and the payload check make of registered precisions. */
  ghost predicate PrecisionsInRange(assets: map<Uint256, AssetInfo>) {
    forall h | h in assets :: assets[h].asset.precision <= if h == ELA_ASSET_ID then 8 else 18
  }

  /** The precision rule on printed amounts: eight digits after the point for ELA and
      eighteen for a token, of which those beyond the asset's precision are zeros. */
  lemma PrecisionRule(assets: map<Uint256, AssetInfo>, out: Output, text: string, point: nat)
    requires PrecisionsInRange(assets)
    requires if out.assetID == ELA_ASSET_ID then D.ReadsAt(text, 8, point, Magnitude(out.value))
             else D.ReadsAt(text, 18, point, Magnitude(out.tokenValue))
    ensures OutputPrecise(assets, out) <==>
              && out.assetID in assets
              && forall i | point + assets[out.assetID].asset.precision < i < |text| :: text[i] == '0'
  {
    if out.assetID in assets {
      var p := assets[out.assetID].asset.precision;
      if out.assetID == ELA_ASSET_ID {
        PrintedMultiple(out.value, text, 8, point, p);
      } else {
        PrintedMultiple(out.tokenValue, text, 18, point, p);
      }
    }
  }

  lemma PrintedMultiple(amount: int, text: string, places: nat, point: nat, precision: nat)
    requires D.ReadsAt(text, places, point, Magnitude(amount)) && precision <= places
    ensures amount % D.Pow10(places - precision) == 0 <==> forall i | point + precision < i < |text| :: text[i] == '0'
  {
    D.NegativeMultiple(amount, D.Pow10(places - precision));
    D.PrecisePrinted(text, places, point, Magnitude(amount), precision);
  }

  /** Only registrations may put out what is not on record. */
  lemma RecordRule(assets: map<Uint256, AssetInfo>, tx: Tx, out: Output)
    requires PrecisionsInRange(assets) && out in tx.outputs && out.assetID !in assets
    ensures PrecisionOk(assets, tx) <==> tx.txType.RegisterAsset?
  {
    var i :| 0 <= i < |tx.outputs| && tx.outputs[i] == out;
    assert !OutputPrecise(assets, tx.outputs[i]);
  }

  /** Groups the outputs by asset, then checks group by group in any order. */
  method CheckAssetPrecision(assets: map<Uint256, AssetInfo>, tx: Tx) returns (ok: bool)
    requires PrecisionsInRange(assets)
    ensures ok <==> PrecisionOk(assets, tx)
  {
    if tx.txType.RegisterAsset? || |tx.outputs| == 0 {
      return true;
    }
    var assetOutputs: map<Uint256, seq<Output>> := map[];
    for i := 0 to |tx.outputs|
      invariant forall k | k in assetOutputs :: assetOutputs[k] != [] && forall out | out in assetOutputs[k] :: out in tx.outputs && out.assetID == k
      invariant forall j | 0 <= j < i :: tx.outputs[j].assetID in assetOutputs && tx.outputs[j] in assetOutputs[tx.outputs[j].assetID]
    {
      var v := tx.outputs[i];
      assetOutputs := assetOutputs[v.assetID := (if v.assetID in assetOutputs then assetOutputs[v.assetID] else []) + [v]];
    }
    var todo := assetOutputs.Keys;
    while todo != {}
      invariant todo <= assetOutputs.Keys
      invariant forall k, out | k in assetOutputs && k !in todo && out in assetOutputs[k] :: OutputPrecise(assets, out)
    {
      var k :| k in todo;
      ok := CheckGroup(assets, k, assetOutputs[k]);
      if !ok {
        return false;
      }
      todo := todo - {k};
    }
    return true;
  }

  method CheckGroup(assets: map<Uint256, AssetInfo>, k: Uint256, outputs: seq<Output>) returns (ok: bool)
    requires PrecisionsInRange(assets) && outputs != []
    requires forall out | out in outputs :: out.assetID == k
    ensures ok <==> forall out | out in outputs :: OutputPrecise(assets, out)
  {
    assert outputs[0] in outputs;
    if k !in assets {
      return false;
    }
    var precision := assets[k].asset.precision;
    for i := 0 to |outputs|
      invariant forall j | 0 <= j < i :: OutputPrecise(assets, outputs[j])
    {
      assert outputs[i] in outputs;
      ok := CheckOutputPrecision(assets, precision, outputs[i]);
      if !ok {
        return false;
      }
    }
    return true;
  }

  method ElaPrecise(value: int, precision: nat) returns (ok: bool)
    requires precision <= 8
    ensures ok <==> value % D.Pow10(8 - precision) == 0
  {
    D.NegativeMultiple(value, D.Pow10(8 - precision));
    ok := D.CheckAmountPrecise(value, precision, 8);
  }

  method TokenPrecise(amount: int, precision: nat) returns (ok: bool)
    requires precision <= 18
    ensures ok <==> amount % D.Pow10(18 - precision) == 0
  {
    D.TokenPrecisionExact(amount, precision);
    ok := D.CheckTokenAmountPrecise(amount, precision, 18);
  }

  method CheckOutputPrecision(assets: map<Uint256, AssetInfo>, precision: byte, output: Output) returns (ok: bool)
    requires PrecisionsInRange(assets)
    requires output.assetID in assets && assets[output.assetID].asset.precision == precision
    ensures ok <==> OutputPrecise(assets, output)
  {
    if output.assetID == ELA_ASSET_ID {
      ok := ElaPrecise(output.value, precision);
    } else {
      ok := TokenPrecise(output.tokenValue, precision);
    }
  }
}
