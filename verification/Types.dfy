/** The chain's values: identifiers, outputs, transactions and blocks. */
module Types {
  import opened Bytes

  datatype RawHash = RawHash(bytes: seq<byte>)
  type Uint256 = h: RawHash | |h.bytes| == 32 witness RawHash(Zeros(32))
  type Uint168 = h: RawHash | |h.bytes| == 21 witness RawHash(Zeros(21))

  /** The system asset. Nothing is assumed about its value. */
  const ELA_ASSET_ID: Uint256

  /** An input's reference to an earlier output; the source's index is a uint16. */
  datatype Outpoint = Outpoint(txid: Uint256, index: uint16)

  datatype Output = Output(
    assetID: Uint256,
    value: int64,
    tokenValue: int,
    outputLock: uint32,
    programHash: Uint168)

  /** `hash` stands for Asset.Hash(). */
  datatype Asset = Asset(name: string, description: string, precision: byte, hash: Uint256)
  datatype AssetInfo = AssetInfo(asset: Asset, height: uint32)

  datatype Option<+T> = None | Some(value: T)

  /** The transaction type with the part of its payload that the store and the
      validator look at. A recharge without a readable main chain hash has `None`. */
  datatype TxType =
    | CoinBase
    | RegisterAsset(asset: Asset, amount: int64, controller: Uint168)
    | TransferAsset
    | Record
    | RechargeToSideChain(mainHash: Option<Uint256>)
    | TransferCrossChainAsset

  /** `hash` stands for Transaction.Hash(). */
  datatype Tx = Tx(
    hash: Uint256,
    txType: TxType,
    lockTime: uint32,
    inputs: seq<Outpoint>,
    outputs: seq<Output>)
  {
    function Spends(): seq<Outpoint> {
      if txType.CoinBase? then [] else inputs
    }
  }

  datatype Block = Block(height: uint32, txs: seq<Tx>)

  datatype TxEntry = TxEntry(tx: Tx, height: uint32)

  /** One entry of an unspent list, and the key of the list it sits in. */
  datatype Utxo = Utxo(txid: Uint256, index: uint32, assetID: Uint256, value: seq<byte>)
  datatype BucketKey = BucketKey(programHash: Uint168, assetID: Uint256, height: uint32)

  datatype StoreError =
    | TransactionNotFound
    | OutputIndexOutOfRange
    | NoUnspentList
    | UtxoNotFound
    | EmptyListPanic
    | SystemAssetName
    | BadMainchainHash

  datatype Result<+T> = Ok(value: T) | Err(error: StoreError) {
    predicate IsFailure() {
      Err?
    }

    function PropagateFailure<U>(): Result<U>
      requires Err?
    {
      Err(error)
    }

    function Extract(): T
      requires Ok?
    {
      value
    }
  }

  /** big.Int.Bytes drops the sign. */
  function ValueBytes(out: Output): seq<byte> {
    if out.assetID == ELA_ASSET_ID then Fixed64Bytes(out.value)
    else BigEndian(Magnitude(out.tokenValue))
  }
}
