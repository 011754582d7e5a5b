/** Byte strings for numbers: fixed-width little-endian words and the minimal
    big-endian form used by big.Int.Bytes and big.Int.SetBytes. */
module Bytes {
  type byte = x: int | 0 <= x < 0x100
  type uint16 = x: int | 0 <= x < 0x1_0000
  type uint32 = x: int | 0 <= x < 0x1_0000_0000
  type int64 = x: int | -0x8000_0000_0000_0000 <= x < 0x8000_0000_0000_0000

  const TWO_64: int := 0x1_0000_0000_0000_0000

  function Magnitude(n: int): nat {
    if n < 0 then -n else n
  }

  /** Go's conversions: they keep the low bits. */
  function ToUint16(n: int): (r: uint16)
    ensures 0 <= n < 0x1_0000 ==> r == n
  {
    n % 0x1_0000
  }

  function ToUint32(n: int): (r: uint32)
    ensures 0 <= n < 0x1_0000_0000 ==> r == n
  {
    n % 0x1_0000_0000
  }

  /** Two's complement wrap-around of int64 arithmetic. */
  function Wrap64(n: int): (r: int64)
    ensures -0x8000_0000_0000_0000 <= n < 0x8000_0000_0000_0000 ==> r == n
  {
    (n + 0x8000_0000_0000_0000) % TWO_64 - 0x8000_0000_0000_0000
  }

  lemma WrapQuotient(n: int) returns (q: int)
    ensures Wrap64(n) == n + q * TWO_64
  {
    q := -((n + 0x8000_0000_0000_0000) / TWO_64);
  }

  lemma WrapShift(n: int, q: int)
    ensures Wrap64(n + q * TWO_64) == Wrap64(n)
  {
    var m := n + 0x8000_0000_0000_0000;
    assert (m + q * TWO_64) % TWO_64 == m % TWO_64;
  }

  /** int64 addition and subtraction. */
  function Add64(a: int, b: int): int64 {
    Wrap64(a + b)
  }

  function Sub64(a: int, b: int): int64 {
    Wrap64(a - b)
  }

  function Zeros(n: nat): (s: seq<byte>)
    ensures |s| == n
  {
    if n == 0 then [] else [0] + Zeros(n - 1)
  }

  function Pow256(k: nat): (p: nat)
    ensures p > 0
  {
    if k == 0 then 1 else 256 * Pow256(k - 1)
  }

  lemma {:induction false} Pow256Add(a: nat, b: nat)
    ensures Pow256(a + b) == Pow256(a) * Pow256(b)
  {
    if a > 0 {
      Pow256Add(a - 1, b);
      assert 256 * Pow256(a - 1) * Pow256(b) == Pow256(a) * Pow256(b);
    }
  }

  /** The number of values of a 33-byte string, 2^264. */
  lemma Pow256Of33()
    ensures Pow256(33) == 29642774844752946028434172162224104410437116074403984394101141506025761187823616
  {
    assert Pow256(8) == TWO_64;
    Pow256Add(8, 8);
    Pow256Add(16, 16);
    Pow256Add(32, 1);
    assert Pow256(16) == 340282366920938463463374607431768211456;
    assert Pow256(32) == 115792089237316195423570985008687907853269984665640564039457584007913129639936;
  }

  function LittleEndian(n: nat, k: nat): (s: seq<byte>)
    ensures |s| == k
  {
    if k == 0 then [] else [n % 256] + LittleEndian(n / 256, k - 1)
  }

  function FromLittleEndian(s: seq<byte>): (n: nat)
    ensures n < Pow256(|s|)
  {
    if s == [] then 0 else s[0] + 256 * FromLittleEndian(s[1..])
  }

  lemma {:induction false} LittleEndianRoundTrip(n: nat, k: nat)
    requires n < Pow256(k)
    ensures FromLittleEndian(LittleEndian(n, k)) == n
  {
    if k > 0 {
      LittleEndianRoundTrip(n / 256, k - 1);
    }
  }

  lemma DivModByte(low: byte, high: nat)
    ensures (low + 256 * high) % 256 == low && (low + 256 * high) / 256 == high
  {
  }

  /** Every byte string is the encoding of the number it decodes to. */
  lemma {:induction false} LittleEndianOnto(s: seq<byte>)
    ensures LittleEndian(FromLittleEndian(s), |s|) == s
  {
    if s != [] {
      LittleEndianOnto(s[1..]);
      var rest := FromLittleEndian(s[1..]);
      DivModByte(s[0], rest);
      assert s == [s[0]] + s[1..];
    }
  }

  lemma {:induction false} LittleEndianInjective(a: nat, b: nat, k: nat)
    requires a < Pow256(k) && b < Pow256(k)
    requires LittleEndian(a, k) == LittleEndian(b, k)
    ensures a == b
  {
    LittleEndianRoundTrip(a, k);
    LittleEndianRoundTrip(b, k);
  }

  lemma DivPower(n: nat, k: nat)
    ensures n / 256 / Pow256(k) == n / Pow256(k + 1)
  {
    var m := Pow256(k);
    var q, r := n / 256 / m, n / 256 % m;
    assert n == 256 * (q * m + r) + n % 256;
    assert 256 * (q * m + r) + n % 256 == q * (256 * m) + (256 * r + n % 256);
    assert 256 * r + n % 256 < 256 * m;
    QuotientUnique(n, 256 * m, q, 256 * r + n % 256);
  }

  lemma MultipleGrows(x: int, m: nat)
    ensures x >= 1 ==> x * m >= m
    ensures x <= -1 ==> x * m + m <= 0
  {
    if x >= 1 {
      assert (x - 1) * m >= 0;
    } else if x <= -1 {
      assert (-x - 1) * m >= 0;
    }
  }

  lemma SmallMultiple(x: int, m: nat)
    requires x * m < m && 0 < x * m + m
    ensures x == 0
  {
    MultipleGrows(x, m);
  }

  lemma QuotientUnique(n: nat, m: nat, q: nat, r: nat)
    requires n == q * m + r && r < m
    ensures n / m == q
  {
    var x := n / m - q;
    assert n == n / m * m + n % m;
    assert x * m == n / m * m - q * m;
    SmallMultiple(x, m);
  }

  /** The low byte comes first. */
  lemma {:induction false} LittleEndianDigits(n: nat, k: nat, i: nat)
    requires i < k
    ensures LittleEndian(n, k)[i] == n / Pow256(i) % 256
    decreases k
  {
    if i > 0 {
      LittleEndianDigits(n / 256, k - 1, i - 1);
      DivPower(n, i - 1);
    }
  }

  /** The low byte comes last. */
  lemma {:induction false} BigEndianDigits(n: nat, i: nat)
    requires i < |BigEndian(n)|
    ensures BigEndian(n)[|BigEndian(n)| - 1 - i] == n / Pow256(i) % 256
    decreases n
  {
    if i > 0 {
      BigEndianDigits(n / 256, i - 1);
      DivPower(n, i - 1);
    }
  }

  function BigEndian(n: nat): (s: seq<byte>)
  {
    if n == 0 then [] else BigEndian(n / 256) + [n % 256]
  }

  function FromBigEndian(s: seq<byte>): nat {
    if s == [] then 0 else FromBigEndian(s[..|s| - 1]) * 256 + s[|s| - 1]
  }

  lemma {:induction false} BigEndianRoundTrip(n: nat)
    ensures FromBigEndian(BigEndian(n)) == n
  {
    if n > 0 {
      BigEndianRoundTrip(n / 256);
      assert BigEndian(n)[..|BigEndian(n)| - 1] == BigEndian(n / 256);
    }
  }

  /** The encoding is as short as the number allows. */
  lemma {:induction false} BigEndianLength(n: nat, k: nat)
    ensures |BigEndian(n)| <= k <==> n < Pow256(k)
  {
    if n > 0 && k > 0 {
      BigEndianLength(n / 256, k - 1);
    }
  }

  /** int64 as eight little-endian bytes, as Fixed64 is stored. */
  function Fixed64Bytes(v: int64): (s: seq<byte>)
    ensures |s| == 8
  {
    LittleEndian(if v < 0 then v + TWO_64 else v, 8)
  }

  /** A negative number has the bytes of itself plus 2^64, the low byte first. */
  lemma Fixed64Digits(v: int64, i: nat)
    requires i < 8
    ensures Fixed64Bytes(v)[i] == (if v < 0 then v + 18446744073709551616 else v) / Pow256(i) % 256
  {
    LittleEndianDigits(if v < 0 then v + TWO_64 else v, 8, i);
  }

  function Fixed64FromBytes(s: seq<byte>): int64
    requires |s| == 8
  {
    assert Pow256(8) == TWO_64;
    Wrap64(FromLittleEndian(s))
  }

  lemma Fixed64RoundTrip(v: int64)
    ensures Fixed64FromBytes(Fixed64Bytes(v)) == v
  {
    assert Pow256(8) == TWO_64;
    LittleEndianRoundTrip(if v < 0 then v + TWO_64 else v, 8);
  }
}
