/** Address queries over the stored UTXO lists: what they return for whatever is
    stored, and that on an exact index this is what the ledger says. */
module Service {
  import opened Bytes
  import opened Types
  import opened Buckets
  import opened Ledger
  import opened Sums
  import opened Conservation
  import opened UtxoIndex
  import opened UtxoCodec
  import opened ChainDb
  import V = Validator
  import D = Decimal

  /** The unspent outputs of an address in one asset. */
  ghost function Owned(txs: Txs, programHash: Uint168, asset: Uint256): set<Outpoint> {
    set o | o in Unspent(txs) && OutputOf(txs, o).programHash == programHash && OutputOf(txs, o).assetID == asset
  }

  ghost function UtxosOf(txs: Txs, s: set<Outpoint>): set<Utxo> {
    set o | o in s && IsOutput(txs, o) :: EntryOf(txs, o).1
  }

  // What a scan of an address's buckets collects

  lemma {:induction false} CollectMember(m: UtxoLists, keys: seq<BucketKey>, a: Uint256, u: Utxo)
    ensures u in Collect(m, keys, a) <==> exists k | k in keys :: k.assetID == a && u in Bucket(m, k)
    decreases |keys|
  {
    if keys != [] {
      var front, last := keys[..|keys| - 1], keys[|keys| - 1];
      CollectMember(m, front, a, u);
      assert forall k :: k in keys <==> k in front || k == last;
    }
  }

  lemma BucketMember(db: Db, k: BucketKey, u: Utxo)
    requires Valid(db)
    ensures u in Bucket(db.utxos, k) <==>
              exists o | o in Unspent(db.reg.txs) :: EntryOf(db.reg.txs, o) == (k, u)
  {
    var txs := db.reg.txs;
    HoldsMember(db.utxos, Entries(txs, Unspent(txs)), k, u);
  }

  lemma {:induction false} NoDuplicatesFromBag<T>(l: seq<T>)
    requires forall x | x in l :: multiset(l)[x] <= 1
    ensures NoDuplicates(l)
  {
    forall i, j | 0 <= i < j < |l| ensures l[i] != l[j] {
      assert l == l[..i] + [l[i]] + l[i + 1..j] + [l[j]] + l[j + 1..];
      assert l[i] in l && multiset(l)[l[i]] >= multiset{l[i], l[j]}[l[i]];
    }
  }

  lemma NoDuplicatesConcat<T>(a: seq<T>, b: seq<T>)
    requires NoDuplicates(a) && NoDuplicates(b) && forall x | x in a :: x !in b
    ensures NoDuplicates(a + b)
  {
    forall i, j | 0 <= i < j < |a + b| ensures (a + b)[i] != (a + b)[j] {
      if i < |a| <= j {
        assert a[i] in a && b[j - |a|] in b;
      }
    }
  }

  lemma BucketNoDuplicates(db: Db, k: BucketKey)
    requires Valid(db)
    ensures NoDuplicates(Bucket(db.utxos, k))
  {
    NoDuplicatesFromBag(Bucket(db.utxos, k));
  }

  /** Different buckets share no entry. */
  lemma BucketsDisjoint(db: Db, k: BucketKey, k': BucketKey, u: Utxo)
    requires Valid(db) && u in Bucket(db.utxos, k) && u in Bucket(db.utxos, k')
    ensures k == k'
  {
    BucketMember(db, k, u);
    BucketMember(db, k', u);
    var o :| o in Unspent(db.reg.txs) && EntryOf(db.reg.txs, o) == (k, u);
    var o' :| o' in Unspent(db.reg.txs) && EntryOf(db.reg.txs, o') == (k', u);
    EntryInjective(db.reg.txs, o, o');
  }

  lemma {:induction false} CollectNoDuplicates(db: Db, keys: seq<BucketKey>, a: Uint256)
    requires Valid(db) && NoDuplicates(keys)
    ensures NoDuplicates(Collect(db.utxos, keys, a))
    decreases |keys|
  {
    if keys != [] {
      var front, last := keys[..|keys| - 1], keys[|keys| - 1];
      CollectNoDuplicates(db, front, a);
      if last.assetID == a {
        BucketNoDuplicates(db, last);
        forall u | u in Collect(db.utxos, front, a) ensures u !in Bucket(db.utxos, last) {
          CollectMember(db.utxos, front, a, u);
          var k :| k in front && k.assetID == a && u in Bucket(db.utxos, k);
          if u in Bucket(db.utxos, last) {
            BucketsDisjoint(db, k, last, u);
          }
        }
        NoDuplicatesConcat(Collect(db.utxos, front, a), Bucket(db.utxos, last));
      }
    }
  }

  lemma CollectedIsOwned(db: Db, programHash: Uint168, keys: seq<BucketKey>, a: Uint256, u: Utxo)
    requires Valid(db) && BucketsOf(db.utxos, programHash, keys)
    ensures u in Collect(db.utxos, keys, a) ==> u in UtxosOf(db.reg.txs, Owned(db.reg.txs, programHash, a))
  {
    var txs := db.reg.txs;
    CollectMember(db.utxos, keys, a, u);
    if u in Collect(db.utxos, keys, a) {
      var k :| k in keys && k.assetID == a && u in Bucket(db.utxos, k);
      BucketMember(db, k, u);
      var o :| o in Unspent(txs) && EntryOf(txs, o) == (k, u);
      assert o in Owned(txs, programHash, a);
    }
  }

  lemma OwnedIsCollected(db: Db, programHash: Uint168, keys: seq<BucketKey>, a: Uint256, u: Utxo)
    requires Valid(db) && BucketsOf(db.utxos, programHash, keys)
    ensures u in UtxosOf(db.reg.txs, Owned(db.reg.txs, programHash, a)) ==> u in Collect(db.utxos, keys, a)
  {
    var txs := db.reg.txs;
    CollectMember(db.utxos, keys, a, u);
    if u in UtxosOf(txs, Owned(txs, programHash, a)) {
      var o :| o in Owned(txs, programHash, a) && EntryOf(txs, o).1 == u;
      var k := EntryOf(txs, o).0;
      BucketMember(db, k, u);
      assert k in keys;
    }
  }

  /** A scan collects exactly the entries of the address's unspent outputs, each once. */
  lemma CollectExact(db: Db, programHash: Uint168, keys: seq<BucketKey>, a: Uint256)
    requires Valid(db) && BucketsOf(db.utxos, programHash, keys)
    ensures NoDuplicates(Collect(db.utxos, keys, a))
    ensures AsSet(Collect(db.utxos, keys, a)) == UtxosOf(db.reg.txs, Owned(db.reg.txs, programHash, a))
  {
    var txs := db.reg.txs;
    CollectNoDuplicates(db, keys, a);
    forall u ensures u in Collect(db.utxos, keys, a) <==> u in UtxosOf(txs, Owned(txs, programHash, a)) {
      CollectedIsOwned(db, programHash, keys, a, u);
      OwnedIsCollected(db, programHash, keys, a, u);
    }
  }

  lemma UtxosWithout(txs: Txs, s: set<Outpoint>, o: Outpoint)
    requires Keyed(txs) && o in s && forall o' | o' in s :: IsOutput(txs, o')
    ensures EntryOf(txs, o).1 !in UtxosOf(txs, s - {o})
    ensures UtxosOf(txs, s) == UtxosOf(txs, s - {o}) + {EntryOf(txs, o).1}
  {
    forall o' | o' in s - {o} ensures EntryOf(txs, o').1 != EntryOf(txs, o).1 {
      if EntryOf(txs, o').1 == EntryOf(txs, o).1 {
        EntryInjective(txs, o, o');
      }
    }
  }

  // Amounts received

  /** The amount an entry's bytes stand for among the entries of an asset. */
  function AmountIn(a: Uint256): Utxo -> int {
    (u: Utxo) =>
      if a != ELA_ASSET_ID then FromBigEndian(u.value)
      else if |u.value| >= 8 then Fixed64FromBytes(u.value[..8]) else 0
  }

  /** The amount of an output as its stored bytes keep it: without a token's sign. */
  function StoredAmount(out: Output): int {
    if out.assetID == ELA_ASSET_ID then out.value else Magnitude(out.tokenValue)
  }

  lemma AmountOfEntry(txs: Txs, o: Outpoint)
    requires IsOutput(txs, o)
    ensures AmountIn(OutputOf(txs, o).assetID)(EntryOf(txs, o).1) == StoredAmount(OutputOf(txs, o))
    ensures OutputOf(txs, o).assetID == ELA_ASSET_ID ==> |EntryOf(txs, o).1.value| == 8
  {
    var out := OutputOf(txs, o);
    if out.assetID == ELA_ASSET_ID {
      Fixed64RoundTrip(out.value);
      assert Fixed64Bytes(out.value)[..8] == Fixed64Bytes(out.value);
    } else {
      BigEndianRoundTrip(Magnitude(out.tokenValue));
    }
  }

  lemma EntriesSumStep(txs: Txs, s: set<Outpoint>, a: Uint256, o: Outpoint)
    requires Keyed(txs) && forall o | o in s :: IsOutput(txs, o) && OutputOf(txs, o).assetID == a
    requires o in s && Sum(UtxosOf(txs, s - {o}), AmountIn(a)) == Sum(s - {o}, WorthAt(StoredAmount, txs))
    ensures Sum(UtxosOf(txs, s), AmountIn(a)) == Sum(s, WorthAt(StoredAmount, txs))
  {
    var u := EntryOf(txs, o).1;
    UtxosWithout(txs, s, o);
    SumInsert(UtxosOf(txs, s - {o}), AmountIn(a), u);
    SumWithout(s, WorthAt(StoredAmount, txs), o);
    AmountOfEntry(txs, o);
    WorthIs(StoredAmount, txs, o);
  }

  /** Summing the entries of a set of outpoints of one asset is summing the outputs. */
  lemma {:induction false} EntriesSum(txs: Txs, s: set<Outpoint>, a: Uint256)
    requires Keyed(txs) && forall o | o in s :: IsOutput(txs, o) && OutputOf(txs, o).assetID == a
    ensures Sum(UtxosOf(txs, s), AmountIn(a)) == Sum(s, WorthAt(StoredAmount, txs))
    decreases |s|
  {
    if s == {} {
      assert UtxosOf(txs, s) == {};
    } else {
      var o :| o in s;
      EntriesSum(txs, s - {o}, a);
      EntriesSumStep(txs, s, a, o);
    }
  }

  ghost function Holding(txs: Txs, programHash: Uint168, asset: Uint256): int {
    Sum(Owned(txs, programHash, asset), WorthAt(StoredAmount, txs))
  }

  lemma CollectSum(db: Db, programHash: Uint168, keys: seq<BucketKey>, a: Uint256)
    requires Valid(db) && BucketsOf(db.utxos, programHash, keys)
    ensures SumOf(Collect(db.utxos, keys, a), AmountIn(a)) == Holding(db.reg.txs, programHash, a)
    ensures Collect(db.utxos, keys, a) != [] <==> Owned(db.reg.txs, programHash, a) != {}
  {
    var txs, l := db.reg.txs, Collect(db.utxos, keys, a);
    CollectExact(db, programHash, keys, a);
    SumOfSet(l, AmountIn(a));
    EntriesSum(txs, Owned(txs, programHash, a), a);
    if l != [] {
      assert l[0] in AsSet(l);
    }
    if Owned(txs, programHash, a) != {} {
      var o :| o in Owned(txs, programHash, a);
      assert EntryOf(txs, o).1 in AsSet(l);
    }
  }

  lemma CollectedEla(db: Db, programHash: Uint168, keys: seq<BucketKey>)
    requires Valid(db) && BucketsOf(db.utxos, programHash, keys)
    ensures forall u | u in Collect(db.utxos, keys, ELA_ASSET_ID) :: |u.value| == 8
  {
    var txs := db.reg.txs;
    CollectExact(db, programHash, keys, ELA_ASSET_ID);
    forall u | u in Collect(db.utxos, keys, ELA_ASSET_ID) ensures |u.value| == 8 {
      assert u in AsSet(Collect(db.utxos, keys, ELA_ASSET_ID));
      var o :| o in Owned(txs, programHash, ELA_ASSET_ID) && EntryOf(txs, o).1 == u;
      AmountOfEntry(txs, o);
    }
  }

  /** What an address received, as reported: the ELA sum in int64 arithmetic and
      each token sum in whole tokens. */
  datatype Received = Received(ela: int64, tokens: map<Uint256, int>)

  /** An ELA value of fewer than 8 bytes gives no amount to add. */
  ghost predicate ElaReadable(l: seq<Utxo>) {
    forall u | u in l :: |u.value| >= 8
  }

  lemma ElaSumNext(utxos: seq<Utxo>, i: nat)
    requires i < |utxos| && |utxos[i].value| >= 8
    ensures Add64(Wrap64(SumOf(utxos[..i], AmountIn(ELA_ASSET_ID))), Fixed64FromBytes(utxos[i].value[..8]))
            == Wrap64(SumOf(utxos[..i + 1], AmountIn(ELA_ASSET_ID)))
  {
    V.SumOfSnoc(utxos, AmountIn(ELA_ASSET_ID), i);
    V.WrapAdd(SumOf(utxos[..i], AmountIn(ELA_ASSET_ID)), Fixed64FromBytes(utxos[i].value[..8]));
  }

  method SumElaList(utxos: seq<Utxo>) returns (elaValue: Option<int64>)
    ensures elaValue.Some? <==> ElaReadable(utxos)
    ensures elaValue.Some? ==> elaValue.value == Wrap64(SumOf(utxos, AmountIn(ELA_ASSET_ID)))
  {
    var total: int64 := 0;
    assert utxos[..0] == [];
    for i := 0 to |utxos|
      invariant forall j | 0 <= j < i :: |utxos[j].value| >= 8
      invariant total == Wrap64(SumOf(utxos[..i], AmountIn(ELA_ASSET_ID)))
    {
      if |utxos[i].value| < 8 {
        assert utxos[i] in utxos;
        return None;
      }
      ElaSumNext(utxos, i);
      total := Add64(total, Fixed64FromBytes(utxos[i].value[..8]));
    }
    assert utxos[..|utxos|] == utxos;
    return Some(total);
  }

  method SumTokenList(utxos: seq<Utxo>, ghost a: Uint256) returns (total: int)
    requires a != ELA_ASSET_ID
    ensures total == SumOf(utxos, AmountIn(a))
  {
    total := 0;
    assert utxos[..0] == [];
    for i := 0 to |utxos|
      invariant total == SumOf(utxos[..i], AmountIn(a))
    {
      V.SumOfSnoc(utxos, AmountIn(a), i);
      total := total + FromBigEndian(utxos[i].value);
    }
    assert utxos[..|utxos|] == utxos;
  }

  /** A token gets a sum with its first entry. */
  ghost predicate TokenSum(found: map<Uint256, seq<Utxo>>, tokens: map<Uint256, int>, a: Uint256) {
    && (a in tokens <==> a != ELA_ASSET_ID && Bucket(found, a) != [])
    && (a in tokens ==> tokens[a] == SumOf(Bucket(found, a), AmountIn(a)))
  }

  /** Adds up the scanned lists, asset by asset in any order. */
  method AddUp(found: map<Uint256, seq<Utxo>>) returns (sums: Option<Received>)
    ensures sums.Some? <==> ElaReadable(Bucket(found, ELA_ASSET_ID))
    ensures sums.Some? ==> sums.value.ela == Wrap64(SumOf(Bucket(found, ELA_ASSET_ID), AmountIn(ELA_ASSET_ID)))
    ensures sums.Some? ==> forall a :: TokenSum(found, sums.value.tokens, a)
  {
    var elaValue: int64 := 0;
    var tokens: map<Uint256, int> := map[];
    var todo := found.Keys;
    while todo != {}
      invariant todo <= found.Keys
      invariant ELA_ASSET_ID !in todo ==> ElaReadable(Bucket(found, ELA_ASSET_ID))
      invariant elaValue == if ELA_ASSET_ID in todo then 0 else Wrap64(SumOf(Bucket(found, ELA_ASSET_ID), AmountIn(ELA_ASSET_ID)))
      invariant forall a | a in todo :: a !in tokens
      invariant forall a | a !in todo :: TokenSum(found, tokens, a)
    {
      var assetID :| assetID in todo;
      if assetID == ELA_ASSET_ID {
        var r := SumElaList(found[assetID]);
        if r.None? {
          return None;
        }
        elaValue := r.value;
      } else if |found[assetID]| > 0 {
        var total := SumTokenList(found[assetID], assetID);
        tokens := tokens[assetID := total];
      }
      todo := todo - {assetID};
    }
    return Some(Received(elaValue, tokens));
  }

  function WholeTokens(tokens: map<Uint256, int>): (r: map<Uint256, int>)
    ensures r.Keys == tokens.Keys && forall a | a in r :: r[a] == tokens[a] / V.TOKEN_UNIT
  {
    map a | a in tokens :: tokens[a] / V.TOKEN_UNIT
  }

  ghost predicate TokenReported(m: UtxoLists, keys: seq<BucketKey>, tokens: map<Uint256, int>, a: Uint256) {
    && (a in tokens <==> a != ELA_ASSET_ID && Collect(m, keys, a) != [])
    && (a in tokens ==> tokens[a] == SumOf(Collect(m, keys, a), AmountIn(a)) / V.TOKEN_UNIT)
  }

  /** The report on the buckets `keys`: the wrapped ELA sum and the whole tokens of
      every token with an entry, and none when an ELA value is too short. */
  ghost predicate ReportOn(m: UtxoLists, keys: seq<BucketKey>, received: Option<Received>) {
    && (received.Some? <==> ElaReadable(Collect(m, keys, ELA_ASSET_ID)))
    && (received.Some? ==> received.value.ela == Wrap64(SumOf(Collect(m, keys, ELA_ASSET_ID), AmountIn(ELA_ASSET_ID))))
    && (received.Some? ==> forall a :: TokenReported(m, keys, received.value.tokens, a))
  }

  /** Reports on the address's buckets as they can be read. An unreadable bucket
      goes unnoticed and leaves nothing received; a short ELA value is a panic. */
  method GetReceivedByAddress(raw: map<seq<byte>, seq<byte>>, programHash: Uint168, ghost ks: set<BucketKey>)
      returns (received: Option<Received>, ghost keys: seq<BucketKey>)
    requires Composed(raw, ks)
    ensures !AddressReadable(raw, ks, programHash) ==> received == Some(Received(0, map[]))
    ensures AddressReadable(raw, ks, programHash) ==>
              BucketsOf(Readable(raw, ks), programHash, keys) && ReportOn(Readable(raw, ks), keys, received)
  {
    var unspents;
    unspents, keys := GetUnspents(raw, programHash, ks);
    if unspents.None? {
      return Some(Received(0, map[])), [];
    }
    var sums := AddUp(unspents.value);
    assert Bucket(unspents.value, ELA_ASSET_ID) == Collect(Readable(raw, ks), keys, ELA_ASSET_ID);
    if sums.None? {
      return None, keys;
    }
    received := Some(Received(sums.value.ela, WholeTokens(sums.value.tokens)));
    forall a ensures TokenReported(Readable(raw, ks), keys, received.value.tokens, a) {
      assert Bucket(unspents.value, a) == Collect(Readable(raw, ks), keys, a);
      assert TokenSum(unspents.value, sums.value.tokens, a);
    }
  }

  /** The ledger's answer for an address. */
  ghost predicate LedgerReceived(txs: Txs, programHash: Uint168, received: Received) {
    && received.ela == Wrap64(Holding(txs, programHash, ELA_ASSET_ID))
    && (forall a :: a in received.tokens <==> a != ELA_ASSET_ID && Owned(txs, programHash, a) != {})
    && (forall a | a in received.tokens :: received.tokens[a] == Holding(txs, programHash, a) / V.TOKEN_UNIT)
  }

  /** On an exact index the report is exactly the ledger's holdings: ELA in int64
      arithmetic, and every token owned, rounded down to whole tokens. */
  lemma ReportIsLedger(db: Db, programHash: Uint168, keys: seq<BucketKey>, received: Option<Received>)
    requires Valid(db) && BucketsOf(db.utxos, programHash, keys) && ReportOn(db.utxos, keys, received)
    ensures received.Some? && LedgerReceived(db.reg.txs, programHash, received.value)
  {
    CollectedEla(db, programHash, keys);
    CollectSum(db, programHash, keys, ELA_ASSET_ID);
    forall a
      ensures a in received.value.tokens <==> a != ELA_ASSET_ID && Owned(db.reg.txs, programHash, a) != {}
      ensures a in received.value.tokens ==> received.value.tokens[a] == Holding(db.reg.txs, programHash, a) / V.TOKEN_UNIT
    {
      assert TokenReported(db.utxos, keys, received.value.tokens, a);
      CollectSum(db, programHash, keys, a);
    }
  }

  /** So the tokens reported are the part of the printed holding before the point. */
  lemma ReportedAsPrinted(txs: Txs, programHash: Uint168, received: Received, a: Uint256, text: string, point: nat)
    requires LedgerReceived(txs, programHash, received) && a in received.tokens
    requires D.ReadsAt(text, 18, point, Magnitude(Holding(txs, programHash, a))) && Holding(txs, programHash, a) > 0
    ensures received.tokens[a] == D.Value(text[..point])
  {
    V.TokenUnitIs();
    D.PrintedParts(text, 18, point, Holding(txs, programHash, a));
  }

  // Listing unspent outputs

  datatype UtxoInfo = UtxoInfo(
    assetID: Uint256,
    txid: Uint256,
    vout: uint32,
    address: Uint168,
    amount: string,
    confirmations: uint32,
    outputLock: uint32)

  /** Entries that can be listed: the transaction is stored, it has the output,
      and an ELA value has at least 8 bytes. */
  predicate Listable(txs: Txs, u: Utxo) {
    && u.txid in txs && u.index < |txs[u.txid].tx.outputs|
    && (u.assetID == ELA_ASSET_ID ==> |u.value| >= 8)
  }

  /** `elaText` prints an ELA amount. */
  function ValueText(u: Utxo, elaText: int64 -> string): string
    requires u.assetID == ELA_ASSET_ID ==> |u.value| >= 8
  {
    if u.assetID == ELA_ASSET_ID then elaText(Fixed64FromBytes(u.value[..8])) else D.ValueString(FromBigEndian(u.value))
  }

  function EntryInfo(txs: Txs, bestHeight: uint32, elaText: int64 -> string, address: Uint168, u: Utxo): UtxoInfo
    requires Listable(txs, u)
  {
    UtxoInfo(u.assetID, u.txid, u.index, address, ValueText(u, elaText),
             ToUint32(bestHeight as int - txs[u.txid].height as int + 1), txs[u.txid].tx.outputs[u.index].outputLock)
  }

  /** The relation between an entry and what a listing tells of it. */
  ghost function TellEntry(txs: Txs, bestHeight: uint32, elaText: int64 -> string, address: Uint168): (UtxoInfo, Utxo) -> bool {
    (info: UtxoInfo, u: Utxo) => Listable(txs, u) && info == EntryInfo(txs, bestHeight, elaText, address, u)
  }

  /** `infos` tells of the entries `l`, one by one. */
  ghost predicate Tells(txs: Txs, bestHeight: uint32, elaText: int64 -> string, address: Uint168, infos: seq<UtxoInfo>, l: seq<Utxo>) {
    && |infos| == |l|
    && forall i | 0 <= i < |l| :: TellEntry(txs, bestHeight, elaText, address)(infos[i], l[i])
  }

  /** All entries of the given buckets. */
  ghost function Bag(m: UtxoLists, keys: seq<BucketKey>): multiset<Utxo> {
    if keys == [] then multiset{} else Bag(m, keys[..|keys| - 1]) + multiset(Bucket(m, keys[|keys| - 1]))
  }

  /** The same, of some assets only. */
  ghost function BagIn(m: UtxoLists, keys: seq<BucketKey>, assets: set<Uint256>): multiset<Utxo> {
    if keys == [] then multiset{}
    else
      var last := keys[|keys| - 1];
      BagIn(m, keys[..|keys| - 1], assets) + if last.assetID in assets then multiset(Bucket(m, last)) else multiset{}
  }

  lemma {:induction false} BagMember(m: UtxoLists, keys: seq<BucketKey>, u: Utxo)
    ensures u in Bag(m, keys) <==> exists k | k in keys :: u in Bucket(m, k)
    decreases |keys|
  {
    if keys != [] {
      var front, last := keys[..|keys| - 1], keys[|keys| - 1];
      BagMember(m, front, u);
      assert forall k :: k in keys <==> k in front || k == last;
    }
  }

  lemma {:induction false} BagOfAll(m: UtxoLists, keys: seq<BucketKey>, assets: set<Uint256>)
    requires forall k | k in keys :: k.assetID in assets
    ensures BagIn(m, keys, assets) == Bag(m, keys)
    decreases |keys|
  {
    if keys != [] {
      BagOfAll(m, keys[..|keys| - 1], assets);
    }
  }

  lemma {:induction false} BagOfNone(m: UtxoLists, keys: seq<BucketKey>)
    ensures BagIn(m, keys, {}) == multiset{}
    decreases |keys|
  {
    if keys != [] {
      BagOfNone(m, keys[..|keys| - 1]);
    }
  }

  /** One asset more adds the concatenation of its lists. */
  lemma {:induction false} BagAddAsset(m: UtxoLists, keys: seq<BucketKey>, assets: set<Uint256>, a: Uint256)
    requires a !in assets
    ensures BagIn(m, keys, assets + {a}) == BagIn(m, keys, assets) + multiset(Collect(m, keys, a))
    decreases |keys|
  {
    if keys != [] {
      var front, last := keys[..|keys| - 1], keys[|keys| - 1];
      BagAddAsset(m, front, assets, a);
      if last.assetID == a {
        assert multiset(Collect(m, front, a) + Bucket(m, last)) == multiset(Collect(m, front, a)) + multiset(Bucket(m, last));
      } else {
        assert Collect(m, keys, a) == Collect(m, front, a) + [];
      }
    }
  }

  /** A relation between the elements of two lists carries over to concatenations. */
  lemma PairwiseConcat<A, B>(p: (A, B) -> bool, a: seq<A>, b: seq<A>, la: seq<B>, lb: seq<B>)
    requires |a| == |la| && |b| == |lb|
    requires (forall i | 0 <= i < |la| :: p(a[i], la[i])) && (forall i | 0 <= i < |lb| :: p(b[i], lb[i]))
    ensures |a + b| == |la + lb| && forall i | 0 <= i < |la + lb| :: p((a + b)[i], (la + lb)[i])
  {
  }

  lemma TellsNext(txs: Txs, bestHeight: uint32, elaText: int64 -> string, address: Uint168, infos: seq<UtxoInfo>, l: seq<Utxo>, u: Utxo)
    requires Tells(txs, bestHeight, elaText, address, infos, l) && Listable(txs, u)
    ensures Tells(txs, bestHeight, elaText, address, infos + [EntryInfo(txs, bestHeight, elaText, address, u)], l + [u])
  {
    PairwiseConcat(TellEntry(txs, bestHeight, elaText, address), infos, [EntryInfo(txs, bestHeight, elaText, address, u)], l, [u]);
  }

  method ListAsset(txs: Txs, bestHeight: uint32, elaText: int64 -> string, address: Uint168, utxos: seq<Utxo>)
      returns (infos: Option<seq<UtxoInfo>>)
    ensures infos.Some? <==> forall u | u in utxos :: Listable(txs, u)
    ensures infos.Some? ==> Tells(txs, bestHeight, elaText, address, infos.value, utxos)
  {
    var told: seq<UtxoInfo> := [];
    for i := 0 to |utxos|
      invariant Tells(txs, bestHeight, elaText, address, told, utxos[..i])
    {
      var unspent := utxos[i];
      assert unspent in utxos && utxos[..i + 1] == utxos[..i] + [unspent];
      if unspent.txid !in txs {
        return None;
      }
      var entry := txs[unspent.txid];
      if (unspent.assetID == ELA_ASSET_ID && |unspent.value| < 8) || unspent.index >= |entry.tx.outputs| {
        return None;
      }
      TellsNext(txs, bestHeight, elaText, address, told, utxos[..i], unspent);
      told := told + [UtxoInfo(unspent.assetID, unspent.txid, unspent.index, address, ValueText(unspent, elaText),
                               ToUint32(bestHeight as int - entry.height as int + 1),
                               entry.tx.outputs[unspent.index].outputLock)];
    }
    assert utxos[..|utxos|] == utxos;
    return Some(told);
  }

  lemma TellsMore(txs: Txs, bestHeight: uint32, elaText: int64 -> string, address: Uint168,
                  a: seq<UtxoInfo>, b: seq<UtxoInfo>, la: seq<Utxo>, lb: seq<Utxo>)
    requires Tells(txs, bestHeight, elaText, address, a, la) && Tells(txs, bestHeight, elaText, address, b, lb)
    ensures Tells(txs, bestHeight, elaText, address, a + b, la + lb)
  {
    PairwiseConcat(TellEntry(txs, bestHeight, elaText, address), a, b, la, lb);
  }

  /** The listing so far: the entries of the assets `done`. */
  ghost predicate ToldOf(txs: Txs, bestHeight: uint32, elaText: int64 -> string, address: Uint168, m: UtxoLists, keys: seq<BucketKey>,
                         done: set<Uint256>, told: seq<UtxoInfo>, entries: seq<Utxo>) {
    Tells(txs, bestHeight, elaText, address, told, entries) && multiset(entries) == BagIn(m, keys, done)
  }

  lemma ToldNext(txs: Txs, bestHeight: uint32, elaText: int64 -> string, address: Uint168, m: UtxoLists, keys: seq<BucketKey>,
                 done: set<Uint256>, told: seq<UtxoInfo>, entries: seq<Utxo>, a: Uint256, more: seq<UtxoInfo>)
    requires ToldOf(txs, bestHeight, elaText, address, m, keys, done, told, entries) && a !in done
    requires Tells(txs, bestHeight, elaText, address, more, Collect(m, keys, a))
    ensures ToldOf(txs, bestHeight, elaText, address, m, keys, done + {a}, told + more, entries + Collect(m, keys, a))
  {
    TellsMore(txs, bestHeight, elaText, address, told, more, entries, Collect(m, keys, a));
    BagAddAsset(m, keys, done, a);
  }

  lemma ToldAll(txs: Txs, bestHeight: uint32, elaText: int64 -> string, address: Uint168, m: UtxoLists, keys: seq<BucketKey>,
                found: map<Uint256, seq<Utxo>>, told: seq<UtxoInfo>, entries: seq<Utxo>)
    requires Collected(found, m, keys) && ToldOf(txs, bestHeight, elaText, address, m, keys, found.Keys, told, entries)
    ensures multiset(entries) == Bag(m, keys) && forall u | u in Bag(m, keys) :: Listable(txs, u)
  {
    BagOfAll(m, keys, found.Keys);
    forall u | u in Bag(m, keys) ensures Listable(txs, u) {
      assert u in entries;
    }
  }

  /** The scanned lists, asset by asset in any order. */
  method ListFound(txs: Txs, bestHeight: uint32, elaText: int64 -> string, address: Uint168, found: map<Uint256, seq<Utxo>>,
                   ghost m: UtxoLists, ghost keys: seq<BucketKey>)
      returns (infos: Option<seq<UtxoInfo>>, ghost entries: seq<Utxo>)
    requires Collected(found, m, keys)
    ensures infos.Some? <==> forall u | u in Bag(m, keys) :: Listable(txs, u)
    ensures infos.Some? ==> Tells(txs, bestHeight, elaText, address, infos.value, entries) && multiset(entries) == Bag(m, keys)
  {
    var told: seq<UtxoInfo> := [];
    entries := [];
    var todo := found.Keys;
    ghost var done: set<Uint256> := {};
    BagOfNone(m, keys);
    while todo != {}
      invariant todo !! done && todo + done == found.Keys
      invariant ToldOf(txs, bestHeight, elaText, address, m, keys, done, told, entries)
    {
      var assetID :| assetID in todo;
      assert found[assetID] == Bucket(found, assetID) == Collect(m, keys, assetID);
      var r := ListAsset(txs, bestHeight, elaText, address, found[assetID]);
      if r.None? {
        SomeNotListable(txs, m, keys, assetID);
        return None, [];
      }
      ToldNext(txs, bestHeight, elaText, address, m, keys, done, told, entries, assetID, r.value);
      told, entries := told + r.value, entries + found[assetID];
      todo, done := todo - {assetID}, done + {assetID};
    }
    assert done == found.Keys;
    ToldAll(txs, bestHeight, elaText, address, m, keys, found, told, entries);
    infos := Some(told);
  }

  lemma SomeNotListable(txs: Txs, m: UtxoLists, keys: seq<BucketKey>, a: Uint256)
    requires exists u | u in Collect(m, keys, a) :: !Listable(txs, u)
    ensures exists u | u in Bag(m, keys) :: !Listable(txs, u)
  {
    var u :| u in Collect(m, keys, a) && !Listable(txs, u);
    CollectMember(m, keys, a, u);
    BagMember(m, keys, u);
  }

  /** `infos` tells, in some order, of exactly the entries of the address's buckets. */
  ghost predicate ListsOne(m: UtxoLists, txs: Txs, bestHeight: uint32, elaText: int64 -> string, address: Uint168, infos: seq<UtxoInfo>) {
    exists keys, entries ::
      && BucketsOf(m, address, keys)
      && multiset(entries) == Bag(m, keys)
      && Tells(txs, bestHeight, elaText, address, infos, entries)
  }

  /** `parts` has such a listing for each address. */
  ghost predicate ListsEach(m: UtxoLists, txs: Txs, bestHeight: uint32, elaText: int64 -> string, addresses: seq<Uint168>,
                            parts: seq<seq<UtxoInfo>>) {
    && |parts| == |addresses|
    && forall n | 0 <= n < |addresses| :: ListsOne(m, txs, bestHeight, elaText, addresses[n], parts[n])
  }

  function Joined<T>(parts: seq<seq<T>>): seq<T> {
    if parts == [] then [] else Joined(parts[..|parts| - 1]) + parts[|parts| - 1]
  }

  /** All buckets of the address can be read and all their entries listed. */
  ghost predicate AddressListable(raw: map<seq<byte>, seq<byte>>, ks: set<BucketKey>, txs: Txs, address: Uint168) {
    && AddressReadable(raw, ks, address)
    && forall k, u | k in ks && k.programHash == address && u in Bucket(Readable(raw, ks), k) :: Listable(txs, u)
  }

  lemma ListableBag(raw: map<seq<byte>, seq<byte>>, ks: set<BucketKey>, txs: Txs, address: Uint168, keys: seq<BucketKey>)
    requires AddressReadable(raw, ks, address) && BucketsOf(Readable(raw, ks), address, keys)
    ensures AddressListable(raw, ks, txs, address) <==> forall u | u in Bag(Readable(raw, ks), keys) :: Listable(txs, u)
  {
    var m := Readable(raw, ks);
    forall u ensures u in Bag(m, keys) <==> exists k | k in keys :: u in Bucket(m, k) {
      BagMember(m, keys, u);
    }
    forall k, u | k in ks && k.programHash == address && u in Bucket(m, k) ensures u in Bag(m, keys) {
      assert k in keys;
    }
    forall u | u in Bag(m, keys) ensures exists k | k in ks && k.programHash == address :: u in Bucket(m, k) {
      var k :| k in keys && u in Bucket(m, k);
      assert k in ks && k.programHash == address;
    }
  }

  method ListAddress(raw: map<seq<byte>, seq<byte>>, txs: Txs, bestHeight: uint32, elaText: int64 -> string,
                     address: Uint168, ghost ks: set<BucketKey>)
      returns (infos: Option<seq<UtxoInfo>>)
    requires Composed(raw, ks)
    ensures infos.Some? <==> AddressListable(raw, ks, txs, address)
    ensures infos.Some? ==> ListsOne(Readable(raw, ks), txs, bestHeight, elaText, address, infos.value)
  {
    var unspents, keys := GetUnspents(raw, address, ks);
    if unspents.None? {
      return None;
    }
    ListableBag(raw, ks, txs, address, keys);
    ghost var entries;
    infos, entries := ListFound(txs, bestHeight, elaText, address, unspents.value, Readable(raw, ks), keys);
  }

  ghost predicate FirstListable(raw: map<seq<byte>, seq<byte>>, ks: set<BucketKey>, txs: Txs, addresses: seq<Uint168>, n: nat)
    requires n <= |addresses|
  {
    n == 0 || (FirstListable(raw, ks, txs, addresses, n - 1) && AddressListable(raw, ks, txs, addresses[n - 1]))
  }

  lemma {:induction false} FirstListableEach(raw: map<seq<byte>, seq<byte>>, ks: set<BucketKey>, txs: Txs, addresses: seq<Uint168>, n: nat)
    requires n <= |addresses| && FirstListable(raw, ks, txs, addresses, n)
    ensures forall i | 0 <= i < n :: AddressListable(raw, ks, txs, addresses[i])
    decreases n
  {
    if n > 0 {
      FirstListableEach(raw, ks, txs, addresses, n - 1);
    }
  }

  lemma ListsEachMore(m: UtxoLists, txs: Txs, bestHeight: uint32, elaText: int64 -> string,
                      addresses: seq<Uint168>, parts: seq<seq<UtxoInfo>>, address: Uint168, more: seq<UtxoInfo>)
    requires ListsEach(m, txs, bestHeight, elaText, addresses, parts)
    requires ListsOne(m, txs, bestHeight, elaText, address, more)
    ensures ListsEach(m, txs, bestHeight, elaText, addresses + [address], parts + [more])
  {
    forall n | 0 <= n < |addresses| + 1
      ensures ListsOne(m, txs, bestHeight, elaText, (addresses + [address])[n], (parts + [more])[n])
    {
      if n < |addresses| {
        assert (addresses + [address])[n] == addresses[n] && (parts + [more])[n] == parts[n];
      }
    }
  }

  /** The loop over the addresses after the first `n` of them. */
  ghost predicate Progress(raw: map<seq<byte>, seq<byte>>, ks: set<BucketKey>, txs: Txs, bestHeight: uint32, elaText: int64 -> string,
                           addresses: seq<Uint168>, n: nat, infos: seq<UtxoInfo>, parts: seq<seq<UtxoInfo>>) {
    && |parts| == n <= |addresses| && infos == Joined(parts)
    && FirstListable(raw, ks, txs, addresses, n)
    && ListsEach(Readable(raw, ks), txs, bestHeight, elaText, addresses[..n], parts)
  }

  lemma ProgressNext(raw: map<seq<byte>, seq<byte>>, ks: set<BucketKey>, txs: Txs, bestHeight: uint32, elaText: int64 -> string,
                     addresses: seq<Uint168>, n: nat, infos: seq<UtxoInfo>, parts: seq<seq<UtxoInfo>>, more: seq<UtxoInfo>)
    requires Progress(raw, ks, txs, bestHeight, elaText, addresses, n, infos, parts) && n < |addresses|
    requires AddressListable(raw, ks, txs, addresses[n])
    requires ListsOne(Readable(raw, ks), txs, bestHeight, elaText, addresses[n], more)
    ensures Progress(raw, ks, txs, bestHeight, elaText, addresses, n + 1, infos + more, parts + [more])
  {
    assert (parts + [more])[..n] == parts;
    assert addresses[..n + 1] == addresses[..n] + [addresses[n]];
    ListsEachMore(Readable(raw, ks), txs, bestHeight, elaText, addresses[..n], parts, addresses[n], more);
  }

  lemma ProgressDone(raw: map<seq<byte>, seq<byte>>, ks: set<BucketKey>, txs: Txs, bestHeight: uint32, elaText: int64 -> string,
                     addresses: seq<Uint168>, infos: seq<UtxoInfo>, parts: seq<seq<UtxoInfo>>)
    requires Progress(raw, ks, txs, bestHeight, elaText, addresses, |addresses|, infos, parts)
    ensures forall n | 0 <= n < |addresses| :: AddressListable(raw, ks, txs, addresses[n])
    ensures infos == Joined(parts) && ListsEach(Readable(raw, ks), txs, bestHeight, elaText, addresses, parts)
  {
    FirstListableEach(raw, ks, txs, addresses, |addresses|);
    assert addresses[..|addresses|] == addresses;
  }

  /** Lists every entry of the addresses' buckets, address after address, or
      nothing at all when one of them cannot be read or listed. */
  method ListUnspent(raw: map<seq<byte>, seq<byte>>, txs: Txs, bestHeight: uint32, elaText: int64 -> string,
                     addresses: seq<Uint168>, ghost ks: set<BucketKey>)
      returns (results: Option<seq<UtxoInfo>>, ghost parts: seq<seq<UtxoInfo>>)
    requires Composed(raw, ks)
    ensures results.Some? <==> forall n | 0 <= n < |addresses| :: AddressListable(raw, ks, txs, addresses[n])
    ensures results.Some? ==>
              results.value == Joined(parts) && ListsEach(Readable(raw, ks), txs, bestHeight, elaText, addresses, parts)
  {
    var allResults: seq<UtxoInfo> := [];
    parts := [];
    for n := 0 to |addresses|
      invariant Progress(raw, ks, txs, bestHeight, elaText, addresses, n, allResults, parts)
    {
      var r := ListAddress(raw, txs, bestHeight, elaText, addresses[n], ks);
      if r.None? {
        return None, [];
      }
      ProgressNext(raw, ks, txs, bestHeight, elaText, addresses, n, allResults, parts, r.value);
      allResults, parts := allResults + r.value, parts + [r.value];
    }
    ProgressDone(raw, ks, txs, bestHeight, elaText, addresses, allResults, parts);
    results := Some(allResults);
  }

  // What a listing says of the ledger

  /** Outputs are stored at heights from 1 to the best height. */
  ghost predicate HeightsKnown(txs: Txs, bestHeight: uint32) {
    forall o | IsOutput(txs, o) :: 1 <= txs[o.txid].height <= bestHeight
  }

  /** What a listing says of an unspent output. */
  ghost function InfoOf(txs: Txs, bestHeight: uint32, elaText: int64 -> string, o: Outpoint): UtxoInfo
    requires IsOutput(txs, o) && HeightsKnown(txs, bestHeight)
  {
    var out := OutputOf(txs, o);
    UtxoInfo(out.assetID, o.txid, o.index, out.programHash,
             if out.assetID == ELA_ASSET_ID then elaText(out.value) else D.ValueString(Magnitude(out.tokenValue)),
             bestHeight - txs[o.txid].height + 1, out.outputLock)
  }

  lemma EntryInfoIs(txs: Txs, bestHeight: uint32, elaText: int64 -> string, o: Outpoint)
    requires Keyed(txs) && HeightsKnown(txs, bestHeight) && IsOutput(txs, o)
    ensures Listable(txs, EntryOf(txs, o).1)
    ensures EntryInfo(txs, bestHeight, elaText, OutputOf(txs, o).programHash, EntryOf(txs, o).1) == InfoOf(txs, bestHeight, elaText, o)
  {
    AmountOfEntry(txs, o);
  }

  /** The relation between an outpoint and what a listing says of it. */
  ghost function Tell(txs: Txs, bestHeight: uint32, elaText: int64 -> string): (UtxoInfo, Outpoint) -> bool {
    (info: UtxoInfo, o: Outpoint) =>
      IsOutput(txs, o) && HeightsKnown(txs, bestHeight) && info == InfoOf(txs, bestHeight, elaText, o)
  }

  /** `infos` describes the outpoints `listed`, one by one. */
  ghost predicate Describes(txs: Txs, bestHeight: uint32, elaText: int64 -> string, infos: seq<UtxoInfo>, listed: seq<Outpoint>)
    requires HeightsKnown(txs, bestHeight)
  {
    && |infos| == |listed|
    && forall i | 0 <= i < |listed| :: Tell(txs, bestHeight, elaText)(infos[i], listed[i])
  }

  /** Everything unspent an address owns. */
  ghost function OwnedByAddress(txs: Txs, programHash: Uint168): set<Outpoint> {
    set o | o in Unspent(txs) && OutputOf(txs, o).programHash == programHash
  }

  /** The entries of an address's buckets are those of its unspent outputs, each once. */
  lemma BagIsOwned(db: Db, address: Uint168, keys: seq<BucketKey>, u: Utxo)
    requires Valid(db) && BucketsOf(db.utxos, address, keys)
    ensures u in Bag(db.utxos, keys) <==> u in UtxosOf(db.reg.txs, OwnedByAddress(db.reg.txs, address))
  {
    var txs := db.reg.txs;
    BagMember(db.utxos, keys, u);
    if u in Bag(db.utxos, keys) {
      var k :| k in keys && u in Bucket(db.utxos, k);
      BucketMember(db, k, u);
      var o :| o in Unspent(txs) && EntryOf(txs, o) == (k, u);
      assert o in OwnedByAddress(txs, address);
    }
    if u in UtxosOf(txs, OwnedByAddress(txs, address)) {
      var o :| o in OwnedByAddress(txs, address) && EntryOf(txs, o).1 == u;
      BucketMember(db, EntryOf(txs, o).0, u);
      assert EntryOf(txs, o).0 in keys;
    }
  }

  lemma {:induction false} BagOnce(db: Db, keys: seq<BucketKey>, u: Utxo)
    requires Valid(db) && NoDuplicates(keys)
    ensures Bag(db.utxos, keys)[u] <= 1
    decreases |keys|
  {
    if keys != [] {
      var front, last := keys[..|keys| - 1], keys[|keys| - 1];
      BagOnce(db, front, u);
      BagMember(db.utxos, front, u);
      if u in Bag(db.utxos, front) && u in Bucket(db.utxos, last) {
        var k :| k in front && u in Bucket(db.utxos, k);
        BucketsDisjoint(db, k, last, u);
      }
      assert multiset(Bucket(db.utxos, last))[u] <= 1;
    }
  }

  /** `listed` names the owned outpoint of each entry. */
  ghost predicate Names(txs: Txs, utxos: seq<Utxo>, owned: set<Outpoint>, listed: seq<Outpoint>) {
    && |listed| == |utxos|
    && forall j | 0 <= j < |listed| :: listed[j] in owned && IsOutput(txs, listed[j]) && EntryOf(txs, listed[j]).1 == utxos[j]
  }

  lemma {:induction false} NameAll(txs: Txs, utxos: seq<Utxo>, owned: set<Outpoint>) returns (listed: seq<Outpoint>)
    requires forall u | u in utxos :: u in UtxosOf(txs, owned)
    ensures Names(txs, utxos, owned, listed)
    decreases |utxos|
  {
    if utxos == [] {
      listed := [];
    } else {
      var front, last := utxos[..|utxos| - 1], utxos[|utxos| - 1];
      assert last in utxos && forall u | u in front :: u in utxos;
      listed := NameAll(txs, front, owned);
      var o :| o in owned && IsOutput(txs, o) && EntryOf(txs, o).1 == last;
      listed := listed + [o];
    }
  }

  lemma NamesExact(txs: Txs, utxos: seq<Utxo>, owned: set<Outpoint>, listed: seq<Outpoint>)
    requires Keyed(txs) && (forall o | o in owned :: IsOutput(txs, o))
    requires Names(txs, utxos, owned, listed)
    requires NoDuplicates(utxos) && AsSet(utxos) == UtxosOf(txs, owned)
    ensures NoDuplicates(listed) && AsSet(listed) == owned
  {
    forall o | o in owned ensures o in listed {
      assert EntryOf(txs, o).1 in AsSet(utxos);
      var j :| 0 <= j < |utxos| && utxos[j] == EntryOf(txs, o).1;
      EntryInjective(txs, o, listed[j]);
    }
  }

  lemma EntriesOwned(db: Db, address: Uint168, keys: seq<BucketKey>, entries: seq<Utxo>)
    requires Valid(db) && BucketsOf(db.utxos, address, keys) && multiset(entries) == Bag(db.utxos, keys)
    ensures NoDuplicates(entries)
    ensures AsSet(entries) == UtxosOf(db.reg.txs, OwnedByAddress(db.reg.txs, address))
  {
    forall u ensures u in entries <==> u in UtxosOf(db.reg.txs, OwnedByAddress(db.reg.txs, address)) {
      BagIsOwned(db, address, keys, u);
      assert u in entries <==> u in multiset(entries);
    }
    forall u | u in entries ensures multiset(entries)[u] <= 1 {
      BagOnce(db, keys, u);
    }
    NoDuplicatesFromBag(entries);
  }

  lemma NamedDescribes(txs: Txs, bestHeight: uint32, elaText: int64 -> string, address: Uint168, infos: seq<UtxoInfo>,
                       entries: seq<Utxo>, listed: seq<Outpoint>)
    requires Keyed(txs) && HeightsKnown(txs, bestHeight)
    requires Tells(txs, bestHeight, elaText, address, infos, entries)
    requires Names(txs, entries, OwnedByAddress(txs, address), listed)
    ensures Describes(txs, bestHeight, elaText, infos, listed)
  {
    forall i | 0 <= i < |listed| ensures IsOutput(txs, listed[i]) && infos[i] == InfoOf(txs, bestHeight, elaText, listed[i]) {
      EntryInfoIs(txs, bestHeight, elaText, listed[i]);
    }
  }

  lemma OneListingIsLedger(db: Db, bestHeight: uint32, elaText: int64 -> string, address: Uint168, infos: seq<UtxoInfo>)
      returns (listed: seq<Outpoint>)
    requires Valid(db) && HeightsKnown(db.reg.txs, bestHeight)
    requires ListsOne(db.utxos, db.reg.txs, bestHeight, elaText, address, infos)
    ensures LedgerOf(db.reg.txs, bestHeight, elaText, address, infos, listed)
  {
    var txs, owned := db.reg.txs, OwnedByAddress(db.reg.txs, address);
    var keys, entries :| BucketsOf(db.utxos, address, keys) && multiset(entries) == Bag(db.utxos, keys)
                         && Tells(txs, bestHeight, elaText, address, infos, entries);
    EntriesOwned(db, address, keys, entries);
    assert forall u | u in entries :: u in AsSet(entries);
    listed := NameAll(txs, entries, owned);
    NamesExact(txs, entries, owned, listed);
    NamedDescribes(txs, bestHeight, elaText, address, infos, entries, listed);
  }

  lemma DescribesConcat(txs: Txs, bestHeight: uint32, elaText: int64 -> string,
                        a: seq<UtxoInfo>, b: seq<UtxoInfo>, la: seq<Outpoint>, lb: seq<Outpoint>)
    requires HeightsKnown(txs, bestHeight)
    requires Describes(txs, bestHeight, elaText, a, la) && Describes(txs, bestHeight, elaText, b, lb)
    ensures Describes(txs, bestHeight, elaText, a + b, la + lb)
  {
    PairwiseConcat(Tell(txs, bestHeight, elaText), a, b, la, lb);
  }

  ghost predicate ListedFor(txs: Txs, addresses: seq<Uint168>, listed: seq<Outpoint>) {
    forall o :: o in listed <==> o in Unspent(txs) && OutputOf(txs, o).programHash in addresses
  }

  lemma AddressAdded(txs: Txs, done: seq<Uint168>, address: Uint168, listed: seq<Outpoint>, more: seq<Outpoint>)
    requires ListedFor(txs, done, listed) && NoDuplicates(more) && AsSet(more) == OwnedByAddress(txs, address)
    ensures ListedFor(txs, done + [address], listed + more)
    ensures NoDuplicates(done + [address]) && NoDuplicates(listed) ==> NoDuplicates(listed + more)
    ensures NoDuplicates(done + [address]) ==> NoDuplicates(done)
  {
    forall o ensures o in listed + more <==> o in Unspent(txs) && OutputOf(txs, o).programHash in done + [address] {
      assert o in more <==> o in AsSet(more);
    }
    if NoDuplicates(done + [address]) {
      assert forall i | 0 <= i < |done| :: (done + [address])[i] == done[i];
      assert (done + [address])[|done|] == address;
      if NoDuplicates(listed) {
        forall o | o in listed ensures o !in more {
          assert o in more <==> o in AsSet(more);
        }
        NoDuplicatesConcat(listed, more);
      }
    }
  }

  /** The ledger's answer for some addresses: every unspent output of theirs with
      its own data and its true number of confirmations, each once if the
      addresses are distinct. */
  ghost predicate LedgerListing(txs: Txs, bestHeight: uint32, elaText: int64 -> string, addresses: seq<Uint168>,
                                infos: seq<UtxoInfo>, listed: seq<Outpoint>)
    requires HeightsKnown(txs, bestHeight)
  {
    && Describes(txs, bestHeight, elaText, infos, listed)
    && ListedFor(txs, addresses, listed)
    && (NoDuplicates(addresses) ==> NoDuplicates(listed))
  }

  /** The same for one address. */
  ghost predicate LedgerOf(txs: Txs, bestHeight: uint32, elaText: int64 -> string, address: Uint168, infos: seq<UtxoInfo>,
                           listed: seq<Outpoint>)
    requires HeightsKnown(txs, bestHeight)
  {
    && Describes(txs, bestHeight, elaText, infos, listed)
    && NoDuplicates(listed) && AsSet(listed) == OwnedByAddress(txs, address)
  }

  lemma {:induction false} JoinedIsLedger(txs: Txs, bestHeight: uint32, elaText: int64 -> string, addresses: seq<Uint168>,
                                          parts: seq<seq<UtxoInfo>>, lists: seq<seq<Outpoint>>)
    requires HeightsKnown(txs, bestHeight) && |parts| == |lists| == |addresses|
    requires forall n | 0 <= n < |addresses| :: LedgerOf(txs, bestHeight, elaText, addresses[n], parts[n], lists[n])
    ensures LedgerListing(txs, bestHeight, elaText, addresses, Joined(parts), Joined(lists))
    decreases |addresses|
  {
    if addresses != [] {
      var n := |addresses| - 1;
      JoinedIsLedger(txs, bestHeight, elaText, addresses[..n], parts[..n], lists[..n]);
      assert addresses == addresses[..n] + [addresses[n]];
      assert LedgerOf(txs, bestHeight, elaText, addresses[n], parts[n], lists[n]);
      AddressAdded(txs, addresses[..n], addresses[n], Joined(lists[..n]), lists[n]);
      DescribesConcat(txs, bestHeight, elaText, Joined(parts[..n]), parts[n], Joined(lists[..n]), lists[n]);
    }
  }

  ghost predicate HasWitness<T(!new)>(p: (nat, T) -> bool, i: nat) {
    exists x :: p(i, x)
  }

  /** Choosing one witness for each index. */
  lemma {:induction false} ChooseEach<T(!new)>(p: (nat, T) -> bool, n: nat) returns (s: seq<T>)
    requires forall i: nat | i < n :: HasWitness(p, i)
    ensures |s| == n && forall i: nat | i < n :: p(i, s[i])
  {
    if n == 0 {
      s := [];
    } else {
      s := ChooseEach(p, n - 1);
      assert HasWitness(p, n - 1);
      var x :| p(n - 1, x);
      s := s + [x];
    }
  }

  /** `listed` is what the part of the listing for one of the addresses describes. */
  ghost function LedgerAt(txs: Txs, bestHeight: uint32, elaText: int64 -> string, addresses: seq<Uint168>, parts: seq<seq<UtxoInfo>>):
      (nat, seq<Outpoint>) -> bool
  {
    (i: nat, listed: seq<Outpoint>) =>
      && HeightsKnown(txs, bestHeight) && i < |addresses| && i < |parts|
      && LedgerOf(txs, bestHeight, elaText, addresses[i], parts[i], listed)
  }

  lemma ListOneOf(db: Db, bestHeight: uint32, elaText: int64 -> string, addresses: seq<Uint168>, parts: seq<seq<UtxoInfo>>, i: nat)
    requires Valid(db) && HeightsKnown(db.reg.txs, bestHeight)
    requires ListsEach(db.utxos, db.reg.txs, bestHeight, elaText, addresses, parts) && i < |addresses|
    ensures HasWitness(LedgerAt(db.reg.txs, bestHeight, elaText, addresses, parts), i)
  {
    assert ListsOne(db.utxos, db.reg.txs, bestHeight, elaText, addresses[i], parts[i]);
    var listed := OneListingIsLedger(db, bestHeight, elaText, addresses[i], parts[i]);
    assert LedgerAt(db.reg.txs, bestHeight, elaText, addresses, parts)(i, listed);
  }

  lemma ListEach(db: Db, bestHeight: uint32, elaText: int64 -> string, addresses: seq<Uint168>, parts: seq<seq<UtxoInfo>>)
      returns (lists: seq<seq<Outpoint>>)
    requires Valid(db) && HeightsKnown(db.reg.txs, bestHeight)
    requires ListsEach(db.utxos, db.reg.txs, bestHeight, elaText, addresses, parts)
    ensures |lists| == |addresses|
    ensures forall i: nat | i < |addresses| :: LedgerAt(db.reg.txs, bestHeight, elaText, addresses, parts)(i, lists[i])
  {
    var p := LedgerAt(db.reg.txs, bestHeight, elaText, addresses, parts);
    forall i: nat | i < |addresses| ensures HasWitness(p, i) {
      ListOneOf(db, bestHeight, elaText, addresses, parts, i);
    }
    lists := ChooseEach(p, |addresses|);
  }

  /** On an exact index a listing is the ledger's answer. */
  lemma ListingIsLedger(db: Db, bestHeight: uint32, elaText: int64 -> string, addresses: seq<Uint168>, parts: seq<seq<UtxoInfo>>)
      returns (listed: seq<Outpoint>)
    requires Valid(db) && HeightsKnown(db.reg.txs, bestHeight)
    requires ListsEach(db.utxos, db.reg.txs, bestHeight, elaText, addresses, parts)
    ensures LedgerListing(db.reg.txs, bestHeight, elaText, addresses, Joined(parts), listed)
  {
    var lists := ListEach(db, bestHeight, elaText, addresses, parts);
    JoinedIsLedger(db.reg.txs, bestHeight, elaText, addresses, parts, lists);
    listed := Joined(lists);
  }

  /** The fields of such a listing, one by one: confirmations count the tip's block
      as one, and a token amount reads back as the output's. */
  lemma ListingFields(txs: Txs, bestHeight: uint32, elaText: int64 -> string, addresses: seq<Uint168>, infos: seq<UtxoInfo>,
                      listed: seq<Outpoint>, i: nat)
    requires HeightsKnown(txs, bestHeight) && LedgerListing(txs, bestHeight, elaText, addresses, infos, listed) && i < |listed|
    ensures |infos| == |listed| && IsOutput(txs, listed[i])
    ensures infos[i].txid == listed[i].txid && infos[i].vout == listed[i].index
    ensures
      var out := txs[listed[i].txid].tx.outputs[listed[i].index];
      && infos[i].assetID == out.assetID && infos[i].address == out.programHash && infos[i].outputLock == out.outputLock
      && infos[i].confirmations + txs[listed[i].txid].height == bestHeight + 1
      && (out.assetID == ELA_ASSET_ID ==> infos[i].amount == elaText(out.value))
      && (out.assetID != ELA_ASSET_ID && out.tokenValue >= 0 ==> D.Reads(infos[i].amount, 18, out.tokenValue))
  {
    var info, o := infos[i], listed[i];
    assert Tell(txs, bestHeight, elaText)(info, o);
    InfoFields(txs, bestHeight, elaText, o);
  }

  lemma InfoFields(txs: Txs, bestHeight: uint32, elaText: int64 -> string, o: Outpoint)
    requires HeightsKnown(txs, bestHeight) && IsOutput(txs, o)
    ensures
      var info, out := InfoOf(txs, bestHeight, elaText, o), txs[o.txid].tx.outputs[o.index];
      && info.txid == o.txid && info.vout == o.index
      && info.assetID == out.assetID && info.address == out.programHash && info.outputLock == out.outputLock
      && info.confirmations + txs[o.txid].height == bestHeight + 1
      && (out.assetID == ELA_ASSET_ID ==> info.amount == elaText(out.value))
      && (out.assetID != ELA_ASSET_ID && out.tokenValue >= 0 ==> D.Reads(info.amount, 18, out.tokenValue))
  {
    D.ValueStringReads(Magnitude(OutputOf(txs, o).tokenValue));
  }

  /** On an exact index whose values fit, every address can be listed. */
  lemma AllListable(raw: map<seq<byte>, seq<byte>>, db: Db, address: Uint168)
    requires Valid(db) && Stores(raw, db.utxos) && Storable(db.utxos)
    ensures AddressListable(raw, db.utxos.Keys, db.reg.txs, address)
  {
    var txs := db.reg.txs;
    StoredReadable(raw, db.utxos);
    forall k, u | u in Bucket(db.utxos, k) ensures Listable(txs, u) {
      BucketMember(db, k, u);
      var o :| o in Unspent(txs) && EntryOf(txs, o) == (k, u);
      AmountOfEntry(txs, o);
    }
  }
}
