# A verified model of the token side chain's ledger

This project models the part of Elastos.ELA.SideChain.Token that decides who owns
what: the UTXO store with block persist and rollback, the transaction rules that
feed it, block assembly, the byte and decimal forms of amounts, and the two
address queries that read the store. `dafny verify dfyconfig.toml` checks it all.

## How the pieces fit

* `Ledger` is the meaning of the store: every output of a stored transaction,
  minus every outpoint spent by a stored non-coinbase input (`Unspent`).
* `Buckets` says what it is for a map of lists to hold a set of (key, element)
  pairs exactly, whatever the order inside a list.
* `UtxoIndex` and `UtxoRollback` specify persist and rollback of the index by
  program hash, asset and height; `UnspentIndex` the index from transaction hash
  to output indexes; `Registry` the transactions, assets and main chain hashes.
* `ChainDb`, `RoundTrip` and `Runs` prove the theorems about one block, a block
  and its rollback, and whole runs. `Naming` says when a block's registrations are
  new to the store.
* `Batches` and `ChainStore` hold the store as the code writes it: a class whose
  methods load lists into a cache, change them in loops, flush them into a batch
  in any map order, and commit. Each method is proved to compute the function
  that specifies it, including which error it returns. Beside the lists the class
  keeps the bytes they are stored as, and a commit keeps the two together.
* `Sums`, `Conservation`, `Validator` and `Supply` carry the transaction rules
  over to whole chains; `FeeHelper` is block assembly.
* `Bytes`, `Streams`, `OutputCodec`, `UtxoCodec` and `Decimal` are the byte and
  decimal forms; `Service` the address queries, down to the stored bytes.
* `Passing` puts all the rules together over a chain; `Examples` has, for each
  result below, an input that the code accepts.
* `Node` joins the ends: a store driven through a run, and queries on its bytes
  that give the ledger's answer.

## Results that differ from what the code sets out to do

* **Rollback of a spend** (blockchain/chainstore.go:460). The restored entry gets
  the hash of the spending transaction, where the entry taken out on persist
  carried the hash of the referenced one (lines 301 and 333). The model keeps the
  line as written (`AsWritten`), and beside it the same code with the referenced
  hash (`Corrected`). For every accepted block, rolling back as written restores
  the UTXO index if and only if the block has no non-coinbase input; `Corrected`
  restores it always. Over runs, the two indexes stay exact if and only if the mode
  is corrected or no step undoes a block with a spend.
  `Examples.AsWrittenExample` is a two-block instance: a deposit, then a transfer
  of it that pays its fee.
* **Rollback of a record** (blockchain/chainstore.go:363-391). Rolling back deletes
  an asset or main chain hash even when an earlier block had recorded it, and
  nothing in the store refuses to record one twice. The
  records come back if and only if the block's hashes were new, so every state of
  a run equals the replay of its chain if and only if each undone block is
  `Restorable`: its records were new and, as written, it spends nothing.
  `Examples.RecordExample`: two recharges of one main chain hash. The
  fresh-name rule makes asset hashes new wherever a hash determines its asset's
  name (`Naming.RegistrationsAreNew`).
* **Fees in int64** (mempool/validator.go:312-337). The sums wrap. A transaction
  that passes really pays its fee if and only if its true ELA outputs exceed its
  true inputs by at most 2^63. `Examples.FeeExample`: for every minimum fee and
  every ELA output that covers it, a transfer of that output that passes every
  rule and creates ELA.
* **Coinbase maturity in uint32** (mempool/validator.go:142-145). A reference that
  passes is mature if and only if the coinbase's lock time is not above the
  current height. `Examples.MaturityExample`: one locked a block ahead passes.
* **Token balance** (mempool/validator.go:341). The balance adds all tokens up, is
  not checked for registrations, and a coinbase has none; the precision check
  (lines 237-273) asks that an output's asset is registered and its amount fits the
  precision, a coinbase's too, but asks nothing of registrations.
  `SupplyExact` and `AssetSupplyExact` state the supply of all tokens and of each
  one with those terms: the simple law, issue less what registrations and
  recharges take in, holds if and only if the unchecked terms sum to nothing.
  `Examples.RegistrationExample`, `SwapExample` and `UnissuedExample` are a
  registration that puts out another token, a transfer that turns one token into
  another registered one, and a whole chain that passes every rule and holds a
  token never registered. `Passing.OnlyRegistrationsEscape`: registrations are the
  only way in for such a token.

## What is assumed

* Hashes (`Tx.hash`, `Asset.hash`) are identifiers. A block's transaction hashes
  are new and distinct, a transaction has at most 65536 outputs (`Fresh`), and an
  offered block's height is above the tip's (`Offered`): the rest of the node
  checks this before it offers a block. Nothing is assumed of its asset and main
  chain hashes.
* A recharge takes its ELA from the main chain, so `Supply.AmountsOk` and
  `Passing.Passes` ask for the rules on inputs neither of coinbases nor of
  recharges. The rest of the node's own rules are not part of this model.
* A node has stored fewer than 2^48 transactions (`Node.Served`), which bounds the
  length of a list below what its length prefix can say. Its blocks have outputs
  that can be read from bytes (`Node.Receivable`, `OutputCodec.ReceivableExact`).
* The system asset id, the empty hash and the zero program hash are constants of
  which nothing is assumed. The genesis transaction registers the system asset
  and moves nothing.
* An input index beyond the referenced outputs, and removing from an empty list,
  make the code panic; the model returns an error there and commits nothing.
* The store class reads its lists as they were put. On the bytes it keeps this is
  what a reader gets wherever the values fit 33 bytes (`UtxoCodec.StoredReadable`),
  and the decoder of outputs lets no longer value in (`Node.LoadAfterRun`).
* The nested maps of the code are one map keyed by (program hash, asset, height).
* `float64(x)*0.3` truncated is one function `share`, used by assembly and check.
* Library primitives (length prefixes, fixed-width integers, `big.Int` texts)
  are modelled as their own documentation describes them; their source is not
  part of this model.
* ELA is registered by genesis with at most 8 digits. That all precisions on record
  then stay in range is proved (`Passing.PrecisionsKept`).

## Model

| member | source | states |
|---|---|---|
| ChainStore.TokenChainStore.PersistUnspendUTXOs | blockchain/chainstore.go:269-361 | loading on first touch, mutating cached lists and flushing once leaves the same store as applying each insertion and removal one at a time, for any order of the final iteration; on failure nothing was added to the batch |
| ChainStore.TokenChainStore.SpendInput | blockchain/chainstore.go:307-342 | looks up the referenced output, loads its list, finds the entry and swaps the last one into its place, or returns the same error as the direct operation |
| ChainStore.TokenChainStore.FlushUtxos | blockchain/chainstore.go:348-358 | the puts and deletes, in any map order, overwrite exactly the cached keys, an empty list becoming a missing key |
| ChainStore.TokenChainStore.PersistUnspentWithProgramHash | blockchain/chainstore.go:242-267 | composes the key from prefix byte, program hash, asset and height and the value from the length and every entry in turn; an empty list deletes the key |
| ChainStore.TokenChainStore.RollbackUnspendUTXOs | blockchain/chainstore.go:393-479 | the loops over outputs and inputs compute the specified rollback in the store's mode, position default and errors included |
| ChainStore.TokenChainStore.RemoveOutput | blockchain/chainstore.go:397-428 | removes the first match, or position 0 when there is none, by splicing |
| ChainStore.TokenChainStore.PersistUnspent | blockchain/chainstore.go:504-552 | own lists start empty, spent lists are loaded, a missing index is ignored, and the flush gives the specified index |
| ChainStore.TokenChainStore.RollbackUnspent | blockchain/chainstore.go:554-595 | deletes of own lists followed by puts of restored lists give the specified index |
| ChainStore.TokenChainStore.PersistTransactions | blockchain/chainstore.go:481-502 | records transactions, assets and main chain hashes, or the first error |
| ChainStore.TokenChainStore.RollbackTransactions | blockchain/chainstore.go:363-391 | deletes the same keys, with the system asset's own key for its transaction |
| ChainStore.TokenChainStore.PersistBlock | blockchain/chainstore.go:139-141 | a block of new transactions is accepted exactly when nothing is spent twice and its records are acceptable; the store stays an exact index either way, and its bytes stay those of its lists |
| ChainStore.TokenChainStore.RollbackBlock | blockchain/chainstore.go:143-145 | after persisting a block on a store, rolling it back restores that store exactly under the stated condition, from any list order, and the bytes follow |
| Batches.PartsCommute | blockchain/chainstore.go:139-141 | the registered functions touch disjoint keys, so all six orders in which they may fill the batch give the same store |
| Batches.WriteStores | blockchain/chainstore.go:242-267 | writing a whole batch keeps the stored bytes exactly the composed keys and serialized lists of the index |
| UtxoIndex.SpendOneExact | blockchain/chainstore.go:306-343 | removal succeeds exactly for an available outpoint of a committed transaction and takes out exactly its own entry |
| UtxoIndex.PersistTxsExact | blockchain/chainstore.go:273-345 | a block succeeds exactly when its spends are distinct and available before the block, which excludes spends inside the block |
| UtxoIndex.SpendFailures | blockchain/chainstore.go:307-340 | which of its four errors a spend gives, from the stored transactions and the list alone |
| UtxoIndex.SpendPlace | blockchain/chainstore.go:332-343 | the last entry of the list takes the place of the spent one |
| UtxoIndex.AddPlace | blockchain/chainstore.go:273-304 | a new entry goes to the end of its own list |
| UtxoIndex.RestorePlace | blockchain/chainstore.go:431-461 | a restored entry goes to the end of the referenced output's list, whole but for the hash |
| UtxoIndex.RemovalFirst | blockchain/chainstore.go:420-427 | the first entry for a rolled back output is spliced out |
| UtxoIndex.RemovalOther | blockchain/chainstore.go:420-427 | without one the first entry of all is |
| UnspentIndex.SpendRule | blockchain/chainstore.go:514-540 | an unlisted index is passed over, a missing list is an error, and nothing else changes |
| UnspentIndex.OwnList | blockchain/chainstore.go:506-512 | a transaction's own list is its output indexes in order |
| UnspentIndex.RestoreRule | blockchain/chainstore.go:560-582 | a restored index goes to the end of its list, loaded from the store when not yet touched |
| ChainDb.PersistUtxosExact | blockchain/chainstore.go:269-361 | acceptance by the UTXO index is exactly no double spend, and the new lists are exactly the new ledger's entries, with no empty list |
| ChainDb.PersistUnspentExact | blockchain/chainstore.go:504-552 | the other index follows the same ledger although it ignores missing indexes |
| ChainDb.PersistExact | blockchain/chainstore.go:269-361 | a whole block is accepted exactly when acceptable, and the new state is valid again |
| ChainDb.RecordsDetermine | blockchain/chainstore.go:242-361 | valid states with the same records are equal up to list order |
| ChainDb.RollbackExact | blockchain/chainstore.go:393-479 | with the referenced hash, rolling back the last block from any list order gives a valid state of the earlier transactions |
| ChainDb.RollbackUnspentExact | blockchain/chainstore.go:554-595 | own deletes and restored puts leave exactly the earlier unspent indexes |
| Ledger.UnspentAfterStore | blockchain/chainstore.go:269-345 | what a block does to the set of unspent outpoints |
| Ledger.SoundAfterStore | blockchain/chainstore.go:305-345 | no outpoint is ever spent by two stored inputs |
| Registry.PersistExact | blockchain/chainstore.go:481-502 | which blocks can be recorded, which keys appear and which stay |
| Registry.RecordedAsRegistered | blockchain/chainstore.go:486-491 | the record under an asset hash is the asset of the block's last registration of it, unchanged, at the block's height |
| Registry.UnrecordableExact | blockchain/chainstore.go:481-502 | a block cannot be recorded exactly when it registers an asset named ELA or has a recharge without a readable main chain hash |
| Naming.RecordsArePayloads | blockchain/chainstore.go:486-491 | on every chain each record but genesis's is the payload of a stored registration of its hash at that transaction's height |
| Registry.RecordsRestoredExact | blockchain/chainstore.go:363-391 | rollback gives the old records back exactly when no asset or main chain hash of the block was recorded before |
| UtxoRollback.RollbackTxsBeside | blockchain/chainstore.go:396-464 | as written, from any exact lists: the block's outpoints go and one stray entry per spend is added, each occurrence counted |
| RoundTrip.AsWrittenExact | blockchain/chainstore.go:393-479 | after rolling back the last block as written each list holds the earlier entries the block did not spend, once, and for each spend the spent entry with its index, asset and value under the spender's hash, and nothing else |
| UtxoRollback.BlockStraysSome | blockchain/chainstore.go:460-461 | there is exactly one such entry for each spend of the block |
| RoundTrip.UtxosRestoredExact | blockchain/chainstore.go:393-479 | the UTXO index comes back as multisets per key with the same keys, exactly when the mode is corrected or the block spends nothing |
| RoundTrip.UnspentRestored | blockchain/chainstore.go:554-595 | the index lists come back as multisets with the same keys for every accepted block |
| RoundTrip.RoundTripExact | blockchain/chainstore.go:363-595 | the exact condition under which a persisted block's rollback restores the whole store |
| RoundTrip.RollbackValidExact | blockchain/chainstore.go:393-595 | whatever was recorded before, the state after rolling back the last block is an exact index of the earlier transactions, exactly when the mode is corrected or the block spends nothing |
| Runs.PathIndependenceExact | blockchain/chainstore.go:269-595 | over any run of persists and rollbacks every state equals the replay of its chain, exactly when every undone block is restorable on the blocks before it |
| Runs.ReachableExact | blockchain/chainstore.go:242-361 | over any run of persists and rollbacks both indexes hold exactly the ledger after every step, exactly when the mode is corrected or no step undoes a spend |
| Runs.NeverSpentTwice | blockchain/chainstore.go:305-345 | on those runs no outpoint is ever spent by two stored inputs |
| Runs.IndexesAgree | blockchain/chainstore.go:504-552 | an index is listed under a transaction hash exactly when some bucket has that entry, and no list has duplicates |
| Runs.HeightsBelowTip | blockchain/chainstore.go:302-303 | outputs are stored at heights from 1 to the tip's |
| Naming.RegistrationsAreNew | mempool/validator.go:190-194 | where a hash determines its asset's name, the fresh-name rule on a replayed state makes a block's asset hashes new, which leaves the main chain hashes and the spends to decide whether it is restorable |
| Validator.CheckTransactionBalance | mempool/validator.go:299-345 | passes exactly when references resolve, the wrapped ELA balance covers the fee of its kind and tokens balance in the aggregate, in any map order |
| Validator.FeeExact | mempool/validator.go:325-338 | when the int64 check means a true fee |
| Validator.FeeRule | mempool/validator.go:325-338 | the least wrapped ELA balance by kind of transaction: the cross chain fee, ten ELA for a registration, the ordinary fee for all others |
| Validator.CheckTransactionOutput | mempool/validator.go:52-99 | passes exactly on the output shape rule, or the coinbase's count and share rule |
| Validator.OutputRule | mempool/validator.go:52-115 | what may be put out, in terms of addresses, amounts and assets: no tokens across chains, nothing negative, and only addresses with a known prefix or none |
| Validator.CheckReferencedOutput | mempool/validator.go:118-151 | passes exactly when all references exist, are positive and, in uint32 arithmetic, mature |
| Validator.MaturityExact | mempool/validator.go:141-145 | when the uint32 maturity check means true maturity |
| Validator.ReferenceRule | mempool/validator.go:118-151 | which outputs may be referenced, for ELA and tokens, with the heights at which a coinbase passes, the wrapped ones included |
| Validator.CheckRegisterAssetTransaction | mempool/validator.go:163-214 | passes exactly for a positive amount, a well-formed new name, and the whole amount put out to the controller |
| Validator.RegistrationRule | mempool/validator.go:163-214 | a registration passes exactly with a new name of letters and digits, a printable description, its asset put out to the controller alone, and a total that prints as the amount with eighteen zeros after the point |
| Validator.CheckAssetPrecision | mempool/validator.go:237-273 | passes exactly when every output's asset is registered and its amount is a multiple of the precision's unit |
| Validator.PrecisionRule | mempool/validator.go:216-235 | of the eight digits printed after the point for ELA, and eighteen for a token, those beyond the asset's precision are zeros |
| Validator.RecordRule | mempool/validator.go:237-254 | only registrations may put out what is not on record |
| Validator.GetTxReference | blockchain/chainstore.go:150-166 | all referenced outputs, or failure when one is missing |
| Decimal.TokenPrecisionExact | mempool/validator.go:220-235 | the check on the last eighteen digits decides divisibility of the whole unbounded amount, of either sign |
| Decimal.ValueStringReads | blockchain/chainstore.go:73-85 | the text has exactly eighteen fractional digits and no redundant zero, and reads back as the amount |
| Decimal.ValueStringInjective | blockchain/chainstore.go:73-85 | different amounts print differently |
| Decimal.ReadsAsNumber | blockchain/chainstore.go:79-84 | the parts around the point are the whole number and the fraction |
| Conservation.BlockMovesTotal | blockchain/chainstore.go:269-361 | persisting a block changes the unspent total of any quantity by what its transactions put out less what they take in |
| Supply.SupplyExact | mempool/validator.go:196-212 | aggregate token supply of every chain whose amounts pass, with the unchecked terms, and that the simple law holds exactly when they sum to nothing |
| Supply.SupplyIsIssuedLessConsumed | mempool/validator.go:340-343 | supply is registered amounts times 10^18 less tokens taken in by registrations and recharges, on chains with nothing foreign |
| Supply.AssetSupplyExact | mempool/validator.go:305-343 | the supply of any one asset on every such chain, and that it is issue less consumption exactly when what the rules leave unchecked of it sums to nothing |
| Supply.OneTokenSupply | mempool/validator.go:305-343 | in particular when nothing is foreign and each other transaction moves at most one token |
| Supply.ValuesBoundedByIssue | mempool/validator.go:206-211 | every token value ever stored is non-negative and at most the amount issued |
| Supply.StoredValuesFit | core/outputhelper.go:10-13 | every value ever stored fits 33 bytes below 2^141 registrations |
| Supply.ListedValuesFit | blockchain/chainstore.go:122 | so does every entry of every list of a store that indexes its chain |
| Passing.PassingAmounts | mempool/validator.go:40-47 | the supply laws hold on every chain that passes all the rules |
| Passing.PrecisionsKept | mempool/validator.go:277-279 | precisions on record stay within what the precision check divides by |
| Passing.OnlyRegistrationsEscape | mempool/validator.go:237-254 | on a chain that passes, every stored output is in an asset on record or is one of a registration |
| FeeHelper.SelectTransactions | mempool/feehelper.go:34-66 | looks at exactly the longest admitted prefix and appends its eligible transactions, with their fees summed |
| FeeHelper.GenerateBlockTransactions | mempool/feehelper.go:33-72 | the first transaction pays the split of that sum, the others stay, and the choice follows |
| FeeHelper.ChosenIsSubsequence | mempool/feehelper.go:46-66 | of the sorted pool before the stop, the choice is in order all transactions that are final and whose fee can be computed, and no others |
| FeeHelper.StopRule | mempool/feehelper.go:46-53 | it stops at the end of the pool or before the first transaction that would break the size or the count limit |
| FeeHelper.BudgetsKept | mempool/feehelper.go:47-53 | size and count budgets hold, the size budget exactly when the coinbase alone fits |
| FeeHelper.AssembledCoinbasePasses | mempool/feehelper.go:68-71 | the assembled coinbase passes the foundation check exactly when its second output is not the foundation's or the share is at most the reward |
| FeeHelper.ElaConserved | mempool/feehelper.go:59-71 | persisting an assembled block of ordinary transfers changes the total ELA by what int64 makes of the fee sum, so not at all exactly when that sum fits |
| OutputCodec.SerializeOutput | core/outputhelper.go:15-41 | appends the encoding to the stream |
| OutputCodec.DeserializeOutput | core/outputhelper.go:43-74 | sets the fields in place, keeping those set before a failure |
| OutputCodec.RoundTripExact | core/outputhelper.go:15-74 | decoding an encoding followed by any bytes gives the output and leaves the bytes, exactly for the encodable outputs |
| OutputCodec.OutputLayout | core/outputhelper.go:15-41 | the fields of an encoded output, byte by byte range |
| OutputCodec.FailureKeeps | core/outputhelper.go:43-74 | what a failed read has set and what it has not |
| OutputCodec.ReceivableExact | core/outputhelper.go:43-74 | the encodable outputs are exactly those that some bytes decode to |
| OutputCodec.EncodableFits | core/outputhelper.go:55-58 | so every value that is received fits the 33 bytes of a stored list |
| OutputCodec.ShapedEncodable | mempool/validator.go:81-91 | the validator's shape rule leaves only the 33-byte limit open |
| UtxoCodec.ListRoundTripExact | blockchain/chainstore.go:88-127 | a stored list reads back as written exactly when all values fit 33 bytes |
| UtxoCodec.UtxoLayout | blockchain/chainstore.go:88-104 | the fields of a serialized entry, byte by byte range |
| UtxoCodec.ListLayout | blockchain/chainstore.go:255-261 | a stored list is its length and its entries in order |
| UtxoCodec.TooLongIsDropped | blockchain/chainstore.go:122-126 | a value over the limit is left empty and reading goes on inside it |
| UtxoCodec.KeyLayout | blockchain/chainstore.go:243-249 | the bytes of a key: 0x91, program hash, asset, and the height with its low byte first |
| UtxoCodec.StoredReadable | blockchain/chainstore.go:208-267 | stored bytes, as `Batches.WriteStores` keeps them, read back whole when the values fit |
| UtxoCodec.KeyInjective | blockchain/chainstore.go:243-249 | composed keys are injective |
| UtxoCodec.PrefixExact | blockchain/chainstore.go:171-173 | the prefix of an address selects exactly its own keys |
| UtxoCodec.GetUnspents | blockchain/chainstore.go:168-206 | the scan returns, per asset, the concatenation of exactly the address's buckets, and fails exactly when one of them cannot be read |
| UtxoCodec.GetUnspentElementFromProgramHash | blockchain/chainstore.go:208-240 | reads back one bucket; fails exactly when there is none or it cannot be read |
| Service.CollectExact | blockchain/chainstore.go:168-206 | the scanned lists are exactly the entries of the address's unspent outputs, each once |
| Service.GetReceivedByAddress | service/service.go:185-224 | for any bytes under composed keys: nothing received when a bucket cannot be read, else the wrapped ELA sum and, for every token with an entry, the sum rounded down to whole tokens; a panic exactly on an ELA value of fewer than 8 bytes |
| Service.ReportIsLedger | service/service.go:185-224 | on an exact index that report is the address's holdings in the ledger, for exactly the tokens owned |
| Service.ReportedAsPrinted | service/service.go:212-218 | the whole tokens reported are the part before the point of the printed holding |
| Service.ListUnspent | service/service.go:226-283 | for any bytes under composed keys: succeeds exactly when every bucket of the addresses can be read and every entry listed, and then tells of each entry of each bucket once, address after address |
| Service.ListingIsLedger | service/service.go:226-283 | on an exact index a listing is every unspent output of the addresses with its own data and true confirmations, each once for distinct addresses |
| Service.ListingFields | service/service.go:253-272 | each field of such a listing: confirmations and the stored height add up to one above the best height, and a token amount reads back as the output's |
| Node.ListSize | blockchain/chainstore.go:253-258 | no list is longer than 65536 times the number of stored transactions |
| Node.QueriesReady | blockchain/chainstore.go:208-267 | on a chain of outputs that can be received, passing or not, everything stored can be read back and heights are as the listing needs |
| Node.Advance | blockchain/chainstore.go:139-145 | one block persisted or rolled back takes the store, with its bytes, to the state of the longer run |
| Node.LoadAfterRun | blockchain/chainstore.go:208-240 | after every legal run on such blocks whose indexes stay exact, reading one bucket from the bytes gives the list that the next block loads |
| Node.ReceivedAfterRun | service/service.go:185-224 | after every such run the amounts received, read from the bytes, are the ledger's |
| Node.UnspentAfterRun | service/service.go:226-283 | and so is the listing of unspent outputs |
| Examples.RecordExample | blockchain/chainstore.go:380-387 | two accepted recharges of one main chain hash: rolling back the second loses the record of the first |
| Examples.AsWrittenExample | blockchain/chainstore.go:460 | a deposit and a transfer that pass every rule and whose rollback as written does not restore the index |
| Examples.FeeExample | mempool/validator.go:312-338 | for every minimum fee a transfer that passes every rule creates 2^64 less the fee |
| Examples.RegistrationExample | mempool/validator.go:196-212 | a registration that pays its fee passes every rule with any amount of another token put out, which it gains |
| Examples.SwapExample | mempool/validator.go:340-343 | a transfer that takes in one token and puts out as much of another registered token passes every rule |
| Examples.UnissuedExample | mempool/validator.go:237-240 | a chain that passes every rule holds any number of a token never registered |
| Examples.MaturityExample | mempool/validator.go:142-145 | a coinbase locked one block ahead passes for every maturity |

## Left out

- main.go, config.go, log.go, params/params.go, bloom/txfilter.go: wiring, configuration and constants.
- LevelDB, iterators, hashing, signatures, address texts and SPV proofs: the store is a map, hashes are identifiers, addresses are program hashes.
- service/service.go, the other requests, parameter parsing, the asset filter of `ListUnspent` and the JSON shape: easy and independent of the ledger.
- mempool/validator.go, `checkTransactionPayloadImpl`: its precision range is part of `Passing.Passes`; its rule for a registration under the system asset's own hash is not, as only genesis has that hash.
- The asset record's byte form (`AssetInfo`) and the text of ELA amounts: the first is easy, the second is a library function, passed to `ListUnspent` as `elaText`.
- The sort of the pool by fee and the computation of a transaction's fee: library code; assembly takes the sorted pool and a fee function.
- The stored bytes of transactions, assets, main chain hashes and IX_Unspent lists: they have other prefixes and are kept as values.
- Recharge amounts: checked in a library, so `FeeHelper.ElaConserved` speaks of blocks whose fees are inputs less outputs.
- Validator.CheckRegisterAssetTransaction: does not model the failing payload type assertion, because the payload is part of the transaction type.
- Service.ReportIsLedger: holdings count amounts as their stored bytes keep them, which drop the sign of a negative token value; validated outputs have none.
