/** The stored form of the UTXO index: composed keys and serialized lists. */
module UtxoCodec {
  import opened Bytes
  import opened Types
  import opened Streams
  import opened Buckets
  import opened UtxoIndex

  const IX_UNSPENT_UTXO: byte := 0x91

  function EncodeUtxo(u: Utxo): seq<byte> {
    u.txid.bytes + LittleEndian(u.index, 4) + u.assetID.bytes + WriteVarBytes(u.value)
  }

  /** A value that cannot be read is left empty, and reading goes on. */
  function DecodeUtxo(s: seq<byte>): Read<Utxo> {
    match ReadUint256(s)
    case Failed(r) => Failed(r)
    case Got(txid, r) => DecodeAfterTxid(txid, r)
  }

  function DecodeAfterTxid(txid: Uint256, s: seq<byte>): Read<Utxo> {
    match ReadUint32(s)
    case Failed(r) => Failed(r)
    case Got(index, r) =>
      match ReadUint256(r)
      case Failed(r') => Failed(r')
      case Got(assetID, r') => DecodeValue(Utxo(txid, index, assetID, []), r')
  }

  function DecodeValue(u: Utxo, s: seq<byte>): Read<Utxo> {
    match ReadVarBytes(s, MAX_TOKEN_VALUE_DATA_SIZE)
    case Failed(r) => Got(u.(value := []), r)
    case Got(value, r) => Got(u.(value := value), r)
  }

  function EncodeUtxos(l: seq<Utxo>): seq<byte> {
    if l == [] then [] else EncodeUtxo(l[0]) + EncodeUtxos(l[1..])
  }

  function EncodeList(l: seq<Utxo>): seq<byte> {
    WriteVarUint(|l|) + EncodeUtxos(l)
  }

  function DecodeUtxos(n: nat, s: seq<byte>): Read<seq<Utxo>> {
    if n == 0 then Got([], s)
    else
      match DecodeUtxo(s)
      case Failed(r) => Failed(r)
      case Got(u, r) =>
        match DecodeUtxos(n - 1, r)
        case Failed(r') => Failed(r')
        case Got(l, r') => Got([u] + l, r')
  }

  /** Reads a stored list; bytes after it are ignored. */
  function DecodeList(s: seq<byte>): Option<seq<Utxo>> {
    match ReadVarUint(s)
    case Failed(_) => None
    case Got(n, r) =>
      match DecodeUtxos(n, r)
      case Failed(_) => None
      case Got(l, _) => Some(l)
  }

  /** Reading the fields before the value, whatever follows them. */
  lemma FieldsRead(u: Utxo, s: seq<byte>)
    ensures DecodeUtxo(u.txid.bytes + (LittleEndian(u.index, 4) + (u.assetID.bytes + s)))
            == DecodeValue(Utxo(u.txid, u.index, u.assetID, []), s)
  {
    var s1 := u.assetID.bytes + s;
    var s0 := LittleEndian(u.index, 4) + s1;
    assert (u.txid.bytes + s0)[..32] == u.txid.bytes && (u.txid.bytes + s0)[32..] == s0;
    Uint32RoundTrip(u.index, s1);
    assert s1[..32] == u.assetID.bytes && s1[32..] == s;
  }

  lemma ConcatFive<T>(a: seq<T>, b: seq<T>, c: seq<T>, d: seq<T>, e: seq<T>)
    ensures a + b + c + d + e == a + (b + (c + (d + e)))
  {
  }

  lemma UtxoThen(u: Utxo, rest: seq<byte>)
    ensures DecodeUtxo(EncodeUtxo(u) + rest) == DecodeValue(Utxo(u.txid, u.index, u.assetID, []), WriteVarBytes(u.value) + rest)
  {
    var s := WriteVarBytes(u.value) + rest;
    FieldsRead(u, s);
    ConcatFive(u.txid.bytes, LittleEndian(u.index, 4), u.assetID.bytes, WriteVarBytes(u.value), rest);
  }

  lemma UtxoRoundTrip(u: Utxo, rest: seq<byte>)
    ensures |u.value| <= MAX_TOKEN_VALUE_DATA_SIZE ==> DecodeUtxo(EncodeUtxo(u) + rest) == Got(u, rest)
    ensures |u.value| > MAX_TOKEN_VALUE_DATA_SIZE ==>
              DecodeUtxo(EncodeUtxo(u) + rest).Got? && DecodeUtxo(EncodeUtxo(u) + rest).value != u
  {
    UtxoThen(u, rest);
    VarBytesExact(u.value, rest);
  }

  /** The fields in their order, after which the value comes with its length. */
  lemma UtxoLayout(u: Utxo)
    ensures
      var s := EncodeUtxo(u);
      && |s| >= 68 && s[..32] == u.txid.bytes && s[32..36] == LittleEndian(u.index, 4) && s[36..68] == u.assetID.bytes
      && s[68..] == WriteVarUint(|u.value|) + u.value
  {
  }

  /** A stored list is its length, then its entries from the first to the last. */
  lemma {:induction false} ListLayout(l: seq<Utxo>, u: Utxo)
    ensures EncodeList([]) == [0] && EncodeList(l) == WriteVarUint(|l|) + EncodeUtxos(l)
    ensures EncodeUtxos(l + [u]) == EncodeUtxos(l) + EncodeUtxo(u)
    decreases l
  {
    if l == [] {
      assert l + [u] == [u] && [u][1..] == [];
      assert EncodeUtxos([u]) == EncodeUtxo(u) + [];
    } else {
      assert (l + [u])[0] == l[0] && (l + [u])[1..] == l[1..] + [u];
      ListLayout(l[1..], u);
    }
  }

  /** A value that is too long is dropped, and reading goes on inside it. */
  lemma TooLongIsDropped(u: Utxo, rest: seq<byte>)
    requires MAX_TOKEN_VALUE_DATA_SIZE < |u.value| < TWO_64
    ensures DecodeUtxo(EncodeUtxo(u) + rest) == Got(u.(value := []), u.value + rest)
  {
    UtxoThen(u, rest);
    VarBytesTooLong(u.value, rest);
  }

  ghost predicate AllFit(l: seq<Utxo>) {
    forall i | 0 <= i < |l| :: |l[i].value| <= MAX_TOKEN_VALUE_DATA_SIZE
  }

  lemma AllFitTail(l: seq<Utxo>)
    requires l != []
    ensures AllFit(l) <==> |l[0].value| <= MAX_TOKEN_VALUE_DATA_SIZE && AllFit(l[1..])
  {
    assert forall i | 1 <= i < |l| :: l[i] == l[1..][i - 1];
    assert forall i | 0 <= i < |l| - 1 :: l[1..][i] == l[i + 1];
  }

  ghost predicate ReadsAs(r: Read<seq<Utxo>>, l: seq<Utxo>) {
    r.Got? && r.value == l
  }

  lemma ReadsAsCons(n: nat, s: seq<byte>, l: seq<Utxo>)
    requires l != [] && n > 0 && DecodeUtxo(s).Got?
    ensures ReadsAs(DecodeUtxos(n, s), l) <==>
              DecodeUtxo(s).value == l[0] && ReadsAs(DecodeUtxos(n - 1, DecodeUtxo(s).rest), l[1..])
  {
    var tail := DecodeUtxos(n - 1, DecodeUtxo(s).rest);
    assert l == [l[0]] + l[1..];
    if tail.Got? {
      var r := [DecodeUtxo(s).value] + tail.value;
      assert r[0] == DecodeUtxo(s).value && r[1..] == tail.value;
    }
  }

  lemma HeadStep(l: seq<Utxo>, rest: seq<byte>)
    requires l != []
    ensures ReadsAs(DecodeUtxos(|l|, EncodeUtxos(l) + rest), l) <==>
              && |l[0].value| <= MAX_TOKEN_VALUE_DATA_SIZE
              && ReadsAs(DecodeUtxos(|l| - 1, EncodeUtxos(l[1..]) + rest), l[1..])
  {
    var more := EncodeUtxos(l[1..]) + rest;
    var s := EncodeUtxo(l[0]) + more;
    assert EncodeUtxos(l) + rest == s;
    UtxoRoundTrip(l[0], more);
    ReadsAsCons(|l|, s, l);
  }

  lemma {:induction false} UtxosRoundTrip(l: seq<Utxo>, rest: seq<byte>)
    ensures ReadsAs(DecodeUtxos(|l|, EncodeUtxos(l) + rest), l) <==> AllFit(l)
    decreases l
  {
    if l == [] {
      assert DecodeUtxos(0, EncodeUtxos(l) + rest) == Got([], EncodeUtxos(l) + rest);
    } else {
      var tail := l[1..];
      assert |tail| == |l| - 1;
      HeadStep(l, rest);
      AllFitTail(l);
      UtxosRoundTrip(tail, rest);
    }
  }

  /** A stored list reads back as written exactly when every value fits 33 bytes. */
  lemma ListRoundTripExact(l: seq<Utxo>)
    requires |l| < TWO_64
    ensures DecodeList(EncodeList(l)) == Some(l) <==> AllFit(l)
  {
    VarUintRoundTrip(|l|, EncodeUtxos(l));
    UtxosRoundTrip(l, []);
    assert EncodeUtxos(l) + [] == EncodeUtxos(l);
  }

  /** Bytes after a stored list do not matter. */
  lemma TrailingIgnored(l: seq<Utxo>, rest: seq<byte>)
    requires |l| < TWO_64 && AllFit(l)
    ensures DecodeList(EncodeList(l) + rest) == Some(l)
  {
    assert EncodeList(l) + rest == WriteVarUint(|l|) + (EncodeUtxos(l) + rest);
    VarUintRoundTrip(|l|, EncodeUtxos(l) + rest);
    UtxosRoundTrip(l, rest);
  }

  // Keys

  function AddressPrefix(programHash: Uint168): seq<byte> {
    [IX_UNSPENT_UTXO] + programHash.bytes
  }

  function EncodeKey(k: BucketKey): seq<byte> {
    AddressPrefix(k.programHash) + k.assetID.bytes + LittleEndian(k.height, 4)
  }

  /** The fields as the scan reads them back from a key. */
  function KeyAsset(key: seq<byte>): Uint256
    requires |key| == 58
  {
    RawHash(key[22..54])
  }

  lemma KeyFields(k: BucketKey)
    ensures |EncodeKey(k)| == 58
    ensures EncodeKey(k)[..22] == AddressPrefix(k.programHash)
    ensures KeyAsset(EncodeKey(k)) == k.assetID
    ensures EncodeKey(k)[54..] == LittleEndian(k.height, 4)
  {
  }

  /** A key is the byte 145, then program hash, asset and height, low byte first. */
  lemma KeyLayout(k: BucketKey, i: nat)
    requires i < 4
    ensures
      var s := EncodeKey(k);
      && |s| == 58 && s[0] == 145 && s[1..22] == k.programHash.bytes && s[22..54] == k.assetID.bytes
      && s[54 + i] == k.height / Pow256(i) % 256
  {
    KeyFields(k);
    LittleEndianDigits(k.height, 4, i);
    assert EncodeKey(k)[54..][i] == EncodeKey(k)[54 + i];
  }

  lemma KeyInjective(k: BucketKey, k': BucketKey)
    requires EncodeKey(k) == EncodeKey(k')
    ensures k == k'
  {
    KeyFields(k);
    KeyFields(k');
    assert AddressPrefix(k.programHash)[1..] == k.programHash.bytes;
    assert AddressPrefix(k'.programHash)[1..] == k'.programHash.bytes;
    assert Pow256(4) == 0x1_0000_0000;
    LittleEndianInjective(k.height, k'.height, 4);
  }

  lemma KeysDiffer(k: BucketKey, k': BucketKey)
    requires k != k'
    ensures EncodeKey(k) != EncodeKey(k')
  {
    if EncodeKey(k) == EncodeKey(k') {
      KeyInjective(k, k');
    }
  }

  /** Scanning by prefix finds exactly one address's keys. */
  lemma PrefixExact(k: BucketKey, programHash: Uint168)
    ensures AddressPrefix(programHash) <= EncodeKey(k) <==> k.programHash == programHash
  {
    KeyFields(k);
    assert AddressPrefix(programHash)[1..] == programHash.bytes;
    assert AddressPrefix(k.programHash)[1..] == k.programHash.bytes;
  }

  /** The keys of `raw` with the index's prefix byte are those composed from `ks`. */
  ghost predicate Composed(raw: map<seq<byte>, seq<byte>>, ks: set<BucketKey>) {
    && (forall k | k in ks :: EncodeKey(k) in raw)
    && (forall key | key in raw && key != [] && key[0] == IX_UNSPENT_UTXO :: exists k | k in ks :: EncodeKey(k) == key)
  }

  /** The lists that can be read. */
  ghost function Readable(raw: map<seq<byte>, seq<byte>>, ks: set<BucketKey>): UtxoLists {
    map k | k in ks && EncodeKey(k) in raw && DecodeList(raw[EncodeKey(k)]).Some? :: DecodeList(raw[EncodeKey(k)]).value
  }

  /** `raw` stores the lists of `m` in byte form among other keys. */
  ghost predicate Stores(raw: map<seq<byte>, seq<byte>>, m: UtxoLists) {
    && Composed(raw, m.Keys)
    && forall k | k in m :: raw[EncodeKey(k)] == EncodeList(m[k])
  }

  ghost predicate Storable(m: UtxoLists) {
    forall k | k in m :: |m[k]| < TWO_64 && AllFit(m[k])
  }

  /** Putting a list under its composed key, and deleting that key, keep the
      stored bytes those of the lists. */
  lemma PutStores(raw: map<seq<byte>, seq<byte>>, m: UtxoLists, k: BucketKey, l: seq<Utxo>)
    requires Stores(raw, m)
    ensures Stores(raw[EncodeKey(k) := EncodeList(l)], m[k := l])
  {
    var raw', m' := raw[EncodeKey(k) := EncodeList(l)], m[k := l];
    forall k' | k' in m && k' != k ensures EncodeKey(k') != EncodeKey(k) {
      KeysDiffer(k', k);
    }
    forall key | key in raw' && key != [] && key[0] == IX_UNSPENT_UTXO ensures exists k' | k' in m' :: EncodeKey(k') == key {
      if key == EncodeKey(k) {
        assert k in m';
      }
    }
  }

  lemma DeleteStores(raw: map<seq<byte>, seq<byte>>, m: UtxoLists, k: BucketKey)
    requires Stores(raw, m)
    ensures Stores(raw - {EncodeKey(k)}, m - {k})
  {
    forall k' | k' in m && k' != k ensures EncodeKey(k') != EncodeKey(k) {
      KeysDiffer(k', k);
    }
  }

  lemma StoredListReads(raw: map<seq<byte>, seq<byte>>, m: UtxoLists, k: BucketKey)
    requires Stores(raw, m) && Storable(m)
    ensures k in Readable(raw, m.Keys) <==> k in m
    ensures k in m ==> Readable(raw, m.Keys)[k] == m[k]
  {
    if k in m {
      assert raw[EncodeKey(k)] == EncodeList(m[k]);
      ListRoundTripExact(m[k]);
    }
  }

  lemma SameLists(m: UtxoLists, m': UtxoLists)
    requires forall k :: (k in m <==> k in m') && (k in m ==> m[k] == m'[k])
    ensures m == m'
  {
  }

  /** Lists whose values fit are read back as stored, all of them. */
  lemma StoredReadable(raw: map<seq<byte>, seq<byte>>, m: UtxoLists)
    requires Stores(raw, m) && Storable(m)
    ensures Readable(raw, m.Keys) == m
  {
    forall k ensures (k in Readable(raw, m.Keys) <==> k in m) && (k in m ==> Readable(raw, m.Keys)[k] == m[k]) {
      StoredListReads(raw, m, k);
    }
    SameLists(Readable(raw, m.Keys), m);
  }

  /** Reads one bucket; fails when there is none or it cannot be decoded. */
  method GetUnspentElementFromProgramHash(raw: map<seq<byte>, seq<byte>>, key: BucketKey, ghost ks: set<BucketKey>)
      returns (unspents: Option<seq<Utxo>>)
    requires Composed(raw, ks)
    ensures unspents == if key in Readable(raw, ks) then Some(Readable(raw, ks)[key]) else None
  {
    var data := EncodeKey(key);
    KeyFields(key);
    if data !in raw {
      return None;
    }
    assert data[0] == data[..22][0] == IX_UNSPENT_UTXO;
    ghost var k :| k in ks && EncodeKey(k) == data;
    KeyInjective(k, key);
    return DecodeList(raw[data]);
  }

  /** The lists of the given buckets with one asset, one after another. */
  ghost function Collect(m: UtxoLists, keys: seq<BucketKey>, assetID: Uint256): seq<Utxo> {
    if keys == [] then []
    else
      var last := keys[|keys| - 1];
      Collect(m, keys[..|keys| - 1], assetID) + if last.assetID == assetID then Bucket(m, last) else []
  }

  /** `keys` names each bucket of the address once. */
  ghost predicate BucketsOf(m: UtxoLists, programHash: Uint168, keys: seq<BucketKey>) {
    && (forall i, j | 0 <= i < j < |keys| :: keys[i] != keys[j])
    && (forall k :: k in keys <==> k in m && k.programHash == programHash)
  }

  ghost predicate Scanned(raw: map<seq<byte>, seq<byte>>, ks: set<BucketKey>, programHash: Uint168, todo: set<seq<byte>>, keys: seq<BucketKey>) {
    && (forall i, j | 0 <= i < j < |keys| :: keys[i] != keys[j])
    && (forall k | k in keys :: k in Readable(raw, ks) && k.programHash == programHash && EncodeKey(k) !in todo)
    && (forall key | key in todo :: key in raw && AddressPrefix(programHash) <= key)
    && (forall k | k in ks && k.programHash == programHash :: k in keys || EncodeKey(k) in todo)
  }

  /** `found` has, by asset, all the lists of the given buckets. */
  ghost predicate Collected(found: map<Uint256, seq<Utxo>>, m: UtxoLists, keys: seq<BucketKey>) {
    && (forall a :: Bucket(found, a) == Collect(m, keys, a))
    && (forall a :: a in found <==> exists k | k in keys :: k.assetID == a)
  }

  lemma CollectOneMore(found: map<Uint256, seq<Utxo>>, m: UtxoLists, keys: seq<BucketKey>, k: BucketKey, a: Uint256)
    requires Bucket(found, a) == Collect(m, keys, a) && k in m
    ensures Bucket(found[k.assetID := Bucket(found, k.assetID) + m[k]], a) == Collect(m, keys + [k], a)
  {
    assert (keys + [k])[..|keys|] == keys;
  }

  lemma CollectStep(found: map<Uint256, seq<Utxo>>, m: UtxoLists, keys: seq<BucketKey>, k: BucketKey)
    requires Collected(found, m, keys) && k in m
    ensures Collected(found[k.assetID := Bucket(found, k.assetID) + m[k]], m, keys + [k])
  {
    var keys', found' := keys + [k], found[k.assetID := Bucket(found, k.assetID) + m[k]];
    forall a ensures Bucket(found', a) == Collect(m, keys', a) {
      CollectOneMore(found, m, keys, k, a);
    }
    forall a ensures a in found' <==> exists k' | k' in keys' :: k'.assetID == a {
      assert forall k' :: k' in keys' <==> k' in keys || k' == k;
    }
  }

  ghost predicate AddressReadable(raw: map<seq<byte>, seq<byte>>, ks: set<BucketKey>, programHash: Uint168) {
    forall k | k in ks && k.programHash == programHash :: k in Readable(raw, ks)
  }

  lemma ScanStart(raw: map<seq<byte>, seq<byte>>, ks: set<BucketKey>, programHash: Uint168, todo: set<seq<byte>>)
    requires Composed(raw, ks) && todo == set key | key in raw && AddressPrefix(programHash) <= key
    ensures Scanned(raw, ks, programHash, todo, [])
  {
    forall k | k in ks && k.programHash == programHash ensures EncodeKey(k) in todo {
      PrefixExact(k, programHash);
    }
  }

  lemma ScanDone(raw: map<seq<byte>, seq<byte>>, ks: set<BucketKey>, programHash: Uint168, keys: seq<BucketKey>)
    requires Scanned(raw, ks, programHash, {}, keys)
    ensures AddressReadable(raw, ks, programHash) && BucketsOf(Readable(raw, ks), programHash, keys)
  {
  }

  lemma BucketReads(raw: map<seq<byte>, seq<byte>>, ks: set<BucketKey>, k: BucketKey)
    requires k in ks && EncodeKey(k) in raw
    ensures k in Readable(raw, ks) <==> DecodeList(raw[EncodeKey(k)]).Some?
    ensures k in Readable(raw, ks) ==> Readable(raw, ks)[k] == DecodeList(raw[EncodeKey(k)]).value
  {
  }

  /** All lists of an address by asset: the concatenation, over all its buckets,
      of exactly the stored lists; fails exactly when one of them cannot be read. */
  method GetUnspents(raw: map<seq<byte>, seq<byte>>, programHash: Uint168, ghost ks: set<BucketKey>)
      returns (unspents: Option<map<Uint256, seq<Utxo>>>, ghost keys: seq<BucketKey>)
    requires Composed(raw, ks)
    ensures unspents.Some? <==> AddressReadable(raw, ks, programHash)
    ensures unspents.Some? ==>
              && BucketsOf(Readable(raw, ks), programHash, keys)
              && Collected(unspents.value, Readable(raw, ks), keys)
  {
    var found: map<Uint256, seq<Utxo>> := map[];
    keys := [];
    var todo := set key | key in raw && AddressPrefix(programHash) <= key;
    ScanStart(raw, ks, programHash, todo);
    while todo != {}
      invariant Scanned(raw, ks, programHash, todo, keys)
      invariant Collected(found, Readable(raw, ks), keys)
      decreases |todo|
    {
      var key :| key in todo;
      ghost var k := OwnerOf(raw, ks, programHash, key);
      assert |key| == 58;
      var assetID := KeyAsset(key);
      var l := DecodeList(raw[key]);
      BucketReads(raw, ks, k);
      if l.None? {
        return None, [];
      }
      ScanStep(raw, ks, programHash, todo, keys, k);
      CollectStep(found, Readable(raw, ks), keys, k);
      found := found[assetID := (if assetID in found then found[assetID] else []) + l.value];
      todo, keys := todo - {key}, keys + [k];
    }
    ScanDone(raw, ks, programHash, keys);
    unspents := Some(found);
  }

  lemma OwnerOf(raw: map<seq<byte>, seq<byte>>, ks: set<BucketKey>, programHash: Uint168, key: seq<byte>) returns (k: BucketKey)
    requires Composed(raw, ks) && key in raw && AddressPrefix(programHash) <= key
    ensures k in ks && k.programHash == programHash && EncodeKey(k) == key
    ensures |key| == 58 && KeyAsset(key) == k.assetID
  {
    assert key[0] == AddressPrefix(programHash)[0];
    k :| k in ks && EncodeKey(k) == key;
    KeyFields(k);
    PrefixExact(k, programHash);
  }

  lemma ScanStep(raw: map<seq<byte>, seq<byte>>, ks: set<BucketKey>, programHash: Uint168, todo: set<seq<byte>>, keys: seq<BucketKey>, k: BucketKey)
    requires Scanned(raw, ks, programHash, todo, keys)
    requires k in Readable(raw, ks) && k.programHash == programHash && EncodeKey(k) in todo
    ensures Scanned(raw, ks, programHash, todo - {EncodeKey(k)}, keys + [k])
  {
    forall k' | k' in ks && k'.programHash == programHash
      ensures k' in keys + [k] || EncodeKey(k') in todo - {EncodeKey(k)}
    {
      if EncodeKey(k') == EncodeKey(k) {
        KeyInjective(k, k');
      }
    }
  }
}
