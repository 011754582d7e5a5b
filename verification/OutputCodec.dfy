/** The byte form of a transaction output. */
module OutputCodec {
  import opened Bytes
  import opened Types
  import opened Streams
  import V = Validator

  class Writer {
    var data: seq<byte>

    constructor ()
      ensures data == []
    {
      data := [];
    }
  }

  /** The part of a stream not read yet. */
  class Reader {
    var data: seq<byte>

    constructor (data: seq<byte>)
      ensures this.data == data
    {
      this.data := data;
    }
  }

  /** An output whose fields a decoder sets in place. */
  class OutputRecord {
    var assetID: Uint256
    var value: int64
    var tokenValue: int
    var outputLock: uint32
    var programHash: Uint168

    constructor (out: Output)
      ensures Contents() == out
    {
      assetID, value, tokenValue := out.assetID, out.value, out.tokenValue;
      outputLock, programHash := out.outputLock, out.programHash;
    }

    function Contents(): Output
      reads this
    {
      Output(assetID, value, tokenValue, outputLock, programHash)
    }
  }

  function EncodeOutput(out: Output): seq<byte> {
    out.assetID.bytes
    + EncodeAmount(out)
    + LittleEndian(out.outputLock, 4)
    + out.programHash.bytes
  }

  /** The fields set before a failure keep their new values. */
  datatype Decoded = Decoded(out: Output, rest: seq<byte>, ok: bool)

  function DecodeOutput(out: Output, s: seq<byte>): Decoded {
    match ReadUint256(s)
    case Failed(rest) => Decoded(out, rest, false)
    case Got(assetID, rest) => DecodeAmount(out.(assetID := assetID), rest)
  }

  function DecodeAmount(out: Output, s: seq<byte>): Decoded {
    if out.assetID == ELA_ASSET_ID then
      match ReadFixed64(s)
      case Failed(rest) => Decoded(out, rest, false)
      case Got(value, rest) => DecodeTail(out.(value := value), rest)
    else
      match ReadVarBytes(s, MAX_TOKEN_VALUE_DATA_SIZE)
      case Failed(rest) => Decoded(out, rest, false)
      case Got(bytes, rest) => DecodeTail(out.(tokenValue := FromBigEndian(bytes)), rest)
  }

  function DecodeTail(out: Output, s: seq<byte>): Decoded {
    match ReadUint32(s)
    case Failed(rest) => Decoded(out, rest, false)
    case Got(lock, rest) =>
      match ReadUint168(rest)
      case Failed(rest') => Decoded(out.(outputLock := lock), rest', false)
      case Got(programHash, rest') => Decoded(out.(outputLock := lock, programHash := programHash), rest', true)
  }

  method SerializeOutput(output: Output, w: Writer)
    modifies w
    ensures w.data == old(w.data) + EncodeOutput(output)
  {
    w.data := w.data + output.assetID.bytes;
    if output.assetID == ELA_ASSET_ID {
      w.data := w.data + Fixed64Bytes(output.value);
    } else {
      w.data := w.data + WriteVarBytes(BigEndian(Magnitude(output.tokenValue)));
    }
    w.data := w.data + LittleEndian(output.outputLock, 4);
    w.data := w.data + output.programHash.bytes;
  }

  method DeserializeTail(output: OutputRecord, r: Reader) returns (ok: bool)
    modifies output, r
    ensures Decoded(output.Contents(), r.data, ok) == DecodeTail(old(output.Contents()), old(r.data))
  {
    var lock := ReadUint32(r.data);
    r.data := lock.rest;
    if lock.Failed? {
      return false;
    }
    output.outputLock := lock.value;
    var programHash := ReadUint168(r.data);
    r.data := programHash.rest;
    if programHash.Failed? {
      return false;
    }
    output.programHash := programHash.value;
    return true;
  }

  method DeserializeOutput(output: OutputRecord, r: Reader) returns (ok: bool)
    modifies output, r
    ensures Decoded(output.Contents(), r.data, ok) == DecodeOutput(old(output.Contents()), old(r.data))
  {
    var assetID := ReadUint256(r.data);
    r.data := assetID.rest;
    if assetID.Failed? {
      return false;
    }
    output.assetID := assetID.value;
    if output.assetID == ELA_ASSET_ID {
      var value := ReadFixed64(r.data);
      r.data := value.rest;
      if value.Failed? {
        return false;
      }
      output.value := value.value;
    } else {
      var bytes := ReadVarBytes(r.data, MAX_TOKEN_VALUE_DATA_SIZE);
      r.data := bytes.rest;
      if bytes.Failed? {
        return false;
      }
      output.tokenValue := FromBigEndian(bytes.value);
    }
    ok := DeserializeTail(output, r);
  }

  /** The asset, the amount, then lock and program hash in the last 25 bytes. */
  lemma OutputLayout(out: Output)
    ensures
      var s := EncodeOutput(out);
      var n := |s| - 25;
      && n >= 32 && s[..32] == out.assetID.bytes
      && (out.assetID == ELA_ASSET_ID ==> s[32..n] == Fixed64Bytes(out.value))
      && (out.assetID != ELA_ASSET_ID ==>
            s[32..n] == WriteVarUint(|BigEndian(Magnitude(out.tokenValue))|) + BigEndian(Magnitude(out.tokenValue)))
      && s[n..n + 4] == LittleEndian(out.outputLock, 4) && s[n + 4..] == out.programHash.bytes
  {
    var s, amount := EncodeOutput(out), EncodeAmount(out);
    assert s == out.assetID.bytes + amount + LittleEndian(out.outputLock, 4) + out.programHash.bytes;
    assert s[32..|s| - 25] == amount;
  }

  /** What a failed read has set: nothing before the asset is complete, the asset
      from then on, and never the program hash. */
  lemma FailureKeeps(out: Output, s: seq<byte>)
    ensures |s| < 32 ==> DecodeOutput(out, s) == Decoded(out, [], false)
    ensures |s| >= 32 ==> DecodeOutput(out, s).out.assetID == RawHash(s[..32])
    ensures |s| >= 32 && RawHash(s[..32]) == ELA_ASSET_ID && |s| < 40 ==>
              DecodeOutput(out, s) == Decoded(out.(assetID := ELA_ASSET_ID), [], false)
    ensures !DecodeOutput(out, s).ok ==> DecodeOutput(out, s).out.programHash == out.programHash
  {
  }

  /** Exactly the outputs that survive the byte form. */
  predicate Encodable(out: Output) {
    if out.assetID == ELA_ASSET_ID then out.tokenValue == 0
    else out.value == 0 && 0 <= out.tokenValue < Pow256(MAX_TOKEN_VALUE_DATA_SIZE)
  }

  lemma TailRoundTrip(out: Output, lock: uint32, programHash: Uint168, rest: seq<byte>)
    ensures DecodeTail(out, LittleEndian(lock, 4) + programHash.bytes + rest)
            == Decoded(out.(outputLock := lock, programHash := programHash), rest, true)
  {
    var s := LittleEndian(lock, 4) + programHash.bytes + rest;
    assert s == LittleEndian(lock, 4) + (programHash.bytes + rest);
    Uint32RoundTrip(lock, programHash.bytes + rest);
    assert (programHash.bytes + rest)[..21] == programHash.bytes && (programHash.bytes + rest)[21..] == rest;
  }

  function EncodeAmount(out: Output): seq<byte> {
    if out.assetID == ELA_ASSET_ID then Fixed64Bytes(out.value) else WriteVarBytes(BigEndian(Magnitude(out.tokenValue)))
  }

  lemma ElaAmountRoundTrip(out: Output, blank: Output, tail: seq<byte>)
    requires out.assetID == blank.assetID == ELA_ASSET_ID
    ensures DecodeAmount(blank, EncodeAmount(out) + tail) == DecodeTail(blank.(value := out.value), tail)
  {
    var b := Fixed64Bytes(out.value);
    assert (b + tail)[..8] == b && (b + tail)[8..] == tail;
    Fixed64RoundTrip(out.value);
  }

  lemma TokenAmountRoundTrip(out: Output, blank: Output, tail: seq<byte>)
    requires out.assetID == blank.assetID != ELA_ASSET_ID
    ensures
      var decoded := DecodeAmount(blank, EncodeAmount(out) + tail);
      if Magnitude(out.tokenValue) < Pow256(MAX_TOKEN_VALUE_DATA_SIZE) then
        decoded == DecodeTail(blank.(tokenValue := Magnitude(out.tokenValue)), tail)
      else !decoded.ok
  {
    var n := Magnitude(out.tokenValue);
    VarBytesExact(BigEndian(n), tail);
    BigEndianLength(n, MAX_TOKEN_VALUE_DATA_SIZE);
    BigEndianRoundTrip(n);
  }

  lemma AssetRead(out: Output, blank: Output, rest: seq<byte>)
    ensures DecodeOutput(blank, EncodeOutput(out) + rest) ==
              DecodeAmount(blank.(assetID := out.assetID),
                           EncodeAmount(out) + (LittleEndian(out.outputLock, 4) + out.programHash.bytes + rest))
  {
    var after := EncodeAmount(out) + (LittleEndian(out.outputLock, 4) + out.programHash.bytes + rest);
    assert EncodeOutput(out) + rest == out.assetID.bytes + after;
    assert (out.assetID.bytes + after)[..32] == out.assetID.bytes && (out.assetID.bytes + after)[32..] == after;
  }

  /** Decoding an encoded output, with any bytes after it, into a new output
      gives that output and leaves those bytes, exactly for encodable outputs. */
  lemma RoundTripExact(out: Output, blank: Output, rest: seq<byte>)
    requires blank.value == 0 && blank.tokenValue == 0
    ensures DecodeOutput(blank, EncodeOutput(out) + rest) == Decoded(out, rest, true) <==> Encodable(out)
  {
    var tail := LittleEndian(out.outputLock, 4) + out.programHash.bytes + rest;
    var started := blank.(assetID := out.assetID);
    AssetRead(out, blank, rest);
    if out.assetID == ELA_ASSET_ID {
      ElaAmountRoundTrip(out, started, tail);
      TailRoundTrip(started.(value := out.value), out.outputLock, out.programHash, rest);
    } else {
      TokenAmountRoundTrip(out, started, tail);
      TailRoundTrip(started.(tokenValue := Magnitude(out.tokenValue)), out.outputLock, out.programHash, rest);
    }
  }

  lemma {:induction false} BigEndianBound(s: seq<byte>)
    ensures FromBigEndian(s) < Pow256(|s|)
    decreases |s|
  {
    if s != [] {
      BigEndianBound(s[..|s| - 1]);
    }
  }

  lemma {:induction false} Pow256Grows(k: nat, n: nat)
    requires k <= n
    ensures Pow256(k) <= Pow256(n)
    decreases n - k
  {
    if k < n {
      Pow256Grows(k + 1, n);
    }
  }

  lemma TailKeepsAmount(out: Output, s: seq<byte>)
    ensures
      var d := DecodeTail(out, s);
      d.out.assetID == out.assetID && d.out.value == out.value && d.out.tokenValue == out.tokenValue
  {
  }

  /** Whatever the bytes, an output read into a new one is encodable. */
  lemma DecodedEncodable(blank: Output, s: seq<byte>)
    requires blank.value == 0 && blank.tokenValue == 0
    ensures DecodeOutput(blank, s).ok ==> Encodable(DecodeOutput(blank, s).out)
  {
    if DecodeOutput(blank, s).ok {
      var asset := ReadUint256(s);
      var started := blank.(assetID := asset.value);
      if asset.value == ELA_ASSET_ID {
        var value := ReadFixed64(asset.rest);
        TailKeepsAmount(started.(value := value.value), value.rest);
      } else {
        var bytes := ReadVarBytes(asset.rest, MAX_TOKEN_VALUE_DATA_SIZE);
        BigEndianBound(bytes.value);
        Pow256Grows(|bytes.value|, MAX_TOKEN_VALUE_DATA_SIZE);
        TailKeepsAmount(started.(tokenValue := FromBigEndian(bytes.value)), bytes.rest);
      }
    }
  }

  /** The encodable outputs are exactly those that can be read from bytes. */
  lemma ReceivableExact(out: Output, blank: Output)
    requires blank.value == 0 && blank.tokenValue == 0
    ensures Encodable(out) <==> exists s :: DecodeOutput(blank, s).ok && DecodeOutput(blank, s).out == out
  {
    if Encodable(out) {
      RoundTripExact(out, blank, []);
      assert DecodeOutput(blank, EncodeOutput(out) + []).ok;
    }
    forall s | DecodeOutput(blank, s).ok && DecodeOutput(blank, s).out == out ensures Encodable(out) {
      DecodedEncodable(blank, s);
    }
  }

  /** Their values all fit the 33 bytes that a list's reader accepts. */
  lemma EncodableFits(out: Output)
    requires Encodable(out)
    ensures |ValueBytes(out)| <= MAX_TOKEN_VALUE_DATA_SIZE
  {
    if out.assetID != ELA_ASSET_ID {
      BigEndianLength(out.tokenValue, MAX_TOKEN_VALUE_DATA_SIZE);
    }
  }

  /** The validator's shape rule leaves only the size of token values open. */
  lemma ShapedEncodable(out: Output)
    requires V.OutputShape(out)
    ensures Encodable(out) <==> out.assetID == ELA_ASSET_ID || |BigEndian(out.tokenValue)| <= MAX_TOKEN_VALUE_DATA_SIZE
  {
    if out.assetID != ELA_ASSET_ID {
      BigEndianLength(out.tokenValue, MAX_TOKEN_VALUE_DATA_SIZE);
    }
  }
}
