/** Reading and writing the primitive fields of the wire and storage formats.
    A failed read also says how much input is left, because one caller goes on. */
module Streams {
  import opened Bytes
  import opened Types

  datatype Read<+T> = Got(value: T, rest: seq<byte>) | Failed(rest: seq<byte>)

  const MAX_TOKEN_VALUE_DATA_SIZE: nat := 33

  function ReadBytes(s: seq<byte>, n: nat): Read<seq<byte>> {
    if |s| < n then Failed([]) else Got(s[..n], s[n..])
  }

  function ReadUint32(s: seq<byte>): Read<uint32> {
    if |s| < 4 then Failed([])
    else
      assert Pow256(4) == 0x1_0000_0000;
      Got(FromLittleEndian(s[..4]), s[4..])
  }

  function ReadUint256(s: seq<byte>): Read<Uint256> {
    if |s| < 32 then Failed([]) else Got(RawHash(s[..32]), s[32..])
  }

  function ReadUint168(s: seq<byte>): Read<Uint168> {
    if |s| < 21 then Failed([]) else Got(RawHash(s[..21]), s[21..])
  }

  function ReadFixed64(s: seq<byte>): Read<int64> {
    if |s| < 8 then Failed([]) else Got(Fixed64FromBytes(s[..8]), s[8..])
  }

  /** A length prefix: one byte, or a marker and two, four or eight bytes. */
  function WriteVarUint(n: nat): seq<byte> {
    if n < 0xfd then [n]
    else if n <= 0xffff then [0xfd] + LittleEndian(n, 2)
    else if n <= 0xffff_ffff then [0xfe] + LittleEndian(n, 4)
    else [0xff] + LittleEndian(n, 8)
  }

  /** Refuses a form longer than the number needs. */
  function ReadVarUint(s: seq<byte>): Read<nat> {
    if s == [] then Failed([])
    else if s[0] == 0xfd then ReadWide(s[1..], 2, 0xfd)
    else if s[0] == 0xfe then ReadWide(s[1..], 4, 0x1_0000)
    else if s[0] == 0xff then ReadWide(s[1..], 8, 0x1_0000_0000)
    else Got(s[0], s[1..])
  }

  function ReadWide(s: seq<byte>, width: nat, least: nat): Read<nat> {
    if |s| < width then Failed([])
    else if FromLittleEndian(s[..width]) < least then Failed(s[width..])
    else Got(FromLittleEndian(s[..width]), s[width..])
  }

  function WriteVarBytes(b: seq<byte>): seq<byte> {
    WriteVarUint(|b|) + b
  }

  function ReadVarBytes(s: seq<byte>, maxAllowed: nat): Read<seq<byte>> {
    match ReadVarUint(s)
    case Failed(rest) => Failed(rest)
    case Got(count, rest) => if count > maxAllowed then Failed(rest) else ReadBytes(rest, count)
  }

  lemma ReadWideBack(n: nat, width: nat, least: nat, rest: seq<byte>)
    requires least <= n < Pow256(width)
    ensures ReadWide(LittleEndian(n, width) + rest, width, least) == Got(n, rest)
  {
    var s := LittleEndian(n, width) + rest;
    assert s[..width] == LittleEndian(n, width) && s[width..] == rest;
    LittleEndianRoundTrip(n, width);
  }

  lemma WidePowers()
    ensures Pow256(2) == 0x1_0000 && Pow256(4) == 0x1_0000_0000 && Pow256(8) == TWO_64
  {
  }

  lemma MarkedRoundTrip(n: nat, marker: byte, width: nat, least: nat, rest: seq<byte>)
    requires (marker, width, least) in {(0xfd, 2, 0xfd), (0xfe, 4, 0x1_0000), (0xff, 8, 0x1_0000_0000)}
    requires least <= n < Pow256(width)
    ensures ReadVarUint([marker] + LittleEndian(n, width) + rest) == Got(n, rest)
  {
    var s := [marker] + LittleEndian(n, width) + rest;
    assert s[0] == marker && s[1..] == LittleEndian(n, width) + rest;
    ReadWideBack(n, width, least, rest);
  }

  lemma VarUintRoundTrip(n: nat, rest: seq<byte>)
    requires n < TWO_64
    ensures ReadVarUint(WriteVarUint(n) + rest) == Got(n, rest)
  {
    WidePowers();
    if n < 0xfd {
      assert ([n] + rest)[1..] == rest;
    } else if n <= 0xffff {
      MarkedRoundTrip(n, 0xfd, 2, 0xfd, rest);
    } else if n <= 0xffff_ffff {
      MarkedRoundTrip(n, 0xfe, 4, 0x1_0000, rest);
    } else {
      MarkedRoundTrip(n, 0xff, 8, 0x1_0000_0000, rest);
    }
  }

  /** One byte below 253; above, a marker for the width and the low byte first. */
  lemma VarUintLayout(n: nat, i: nat)
    requires n < TWO_64
    ensures
      var s := WriteVarUint(n);
      && (n < 253 ==> s == [n])
      && (253 <= n < 65536 ==> |s| == 3 && s[0] == 253)
      && (65536 <= n < 4294967296 ==> |s| == 5 && s[0] == 254)
      && (4294967296 <= n ==> |s| == 9 && s[0] == 255)
      && (n >= 253 && 1 <= i < |s| ==> s[i] == n / Pow256(i - 1) % 256)
  {
    var s := WriteVarUint(n);
    if n >= 253 && 1 <= i < |s| {
      LittleEndianDigits(n, |s| - 1, i - 1);
    }
  }

  /** No length above the limit is ever read back as one within it. */
  lemma VarUintStaysLarge(n: nat, rest: seq<byte>)
    requires n > MAX_TOKEN_VALUE_DATA_SIZE
    ensures ReadVarUint(WriteVarUint(n) + rest).Got? ==> ReadVarUint(WriteVarUint(n) + rest).value > MAX_TOKEN_VALUE_DATA_SIZE
  {
    if n < TWO_64 {
      VarUintRoundTrip(n, rest);
    } else {
      assert (WriteVarUint(n) + rest)[0] == 0xff;
    }
  }

  /** Bytes written with their length read back exactly when they fit the limit. */
  lemma VarBytesExact(b: seq<byte>, rest: seq<byte>)
    ensures |b| <= MAX_TOKEN_VALUE_DATA_SIZE ==> ReadVarBytes(WriteVarBytes(b) + rest, MAX_TOKEN_VALUE_DATA_SIZE) == Got(b, rest)
    ensures |b| > MAX_TOKEN_VALUE_DATA_SIZE ==> ReadVarBytes(WriteVarBytes(b) + rest, MAX_TOKEN_VALUE_DATA_SIZE).Failed?
  {
    assert WriteVarBytes(b) + rest == WriteVarUint(|b|) + (b + rest);
    if |b| <= MAX_TOKEN_VALUE_DATA_SIZE {
      VarUintRoundTrip(|b|, b + rest);
      assert (b + rest)[..|b|] == b && (b + rest)[|b|..] == rest;
    } else {
      VarUintStaysLarge(|b|, b + rest);
    }
  }

  /** Of bytes over the limit only the length is taken. */
  lemma VarBytesTooLong(b: seq<byte>, rest: seq<byte>)
    requires MAX_TOKEN_VALUE_DATA_SIZE < |b| < TWO_64
    ensures ReadVarBytes(WriteVarBytes(b) + rest, MAX_TOKEN_VALUE_DATA_SIZE) == Failed(b + rest)
  {
    assert WriteVarBytes(b) + rest == WriteVarUint(|b|) + (b + rest);
    VarUintRoundTrip(|b|, b + rest);
  }

  lemma Uint32RoundTrip(n: uint32, rest: seq<byte>)
    ensures ReadUint32(LittleEndian(n, 4) + rest) == Got(n, rest)
  {
    var s := LittleEndian(n, 4) + rest;
    assert s[..4] == LittleEndian(n, 4) && s[4..] == rest;
    assert Pow256(4) == 0x1_0000_0000;
    LittleEndianRoundTrip(n, 4);
  }
}
