/** Decimal texts of big integers: cutting off the last digits, reading them
    back, and printing an amount with eighteen fractional digits. */
module Decimal {
  import opened Bytes
  import opened Types

  function Pow10(k: nat): (p: nat)
    ensures p > 0
  {
    if k == 0 then 1 else 10 * Pow10(k - 1)
  }

  function DigitChar(d: nat): char
    requires d < 10
  {
    '0' + d as char
  }

  predicate IsDigit(c: char) {
    '0' <= c <= '9'
  }

  predicate AllDigits(s: string) {
    forall i | 0 <= i < |s| :: IsDigit(s[i])
  }

  /** big.Int.String of a natural number. */
  function Digits(n: nat): string {
    if n < 10 then [DigitChar(n)] else Digits(n / 10) + [DigitChar(n % 10)]
  }

  function String(n: int): string {
    if n < 0 then "-" + Digits(-n) else Digits(n)
  }

  function Value(s: string): int {
    if s == [] then 0 else Value(s[..|s| - 1]) * 10 + (s[|s| - 1] as int - '0' as int)
  }

  /** big.Int.SetString with base 10: an optional sign and at least one digit. */
  function SetString(s: string): Option<int> {
    if s != [] && (s[0] == '-' || s[0] == '+') then
      if s[1..] != [] && AllDigits(s[1..]) then
        Some(if s[0] == '-' then -Value(s[1..]) else Value(s[1..]))
      else None
    else if s != [] && AllDigits(s) then Some(Value(s))
    else None
  }

  lemma {:induction false} DigitsRoundTrip(n: nat)
    ensures Digits(n) != [] && AllDigits(Digits(n)) && Value(Digits(n)) == n
    ensures Digits(n)[0] == '0' ==> n == 0 && |Digits(n)| == 1
  {
    if n < 10 {
      assert Value([DigitChar(n)]) == Value([]) * 10 + n;
    } else {
      DigitsRoundTrip(n / 10);
      var s := Digits(n);
      assert s[..|s| - 1] == Digits(n / 10);
      assert s[|s| - 1] == DigitChar(n % 10);
    }
  }

  lemma {:induction false} ValueBound(s: string)
    requires AllDigits(s)
    ensures 0 <= Value(s) < Pow10(|s|)
  {
    if s != [] {
      ValueBound(s[..|s| - 1]);
    }
  }

  lemma ShiftDigit(a: nat, d: nat, m: nat)
    requires m > 0 && d < 10
    ensures (a * 10 + d) % (10 * m) == a % m * 10 + d
  {
    var q, r := a / m, a % m;
    assert a == q * m + r;
    assert a * 10 + d == q * (10 * m) + (r * 10 + d);
    ModUnique(a * 10 + d, 10 * m, q, r * 10 + d);
  }

  lemma ModUnique(n: int, m: nat, q: int, r: nat)
    requires r < m && n == q * m + r
    ensures n % m == r
  {
    var x := q - n / m;
    assert n == n / m * m + n % m;
    assert x * m == q * m - n / m * m;
    SmallMultiple(x, m);
  }

  /** The last k digits of a decimal text are its value modulo 10^k. */
  lemma {:induction false} LastDigits(s: string, k: nat)
    requires AllDigits(s) && k <= |s|
    ensures AllDigits(s[|s| - k..]) && Value(s) >= 0
    ensures Value(s[|s| - k..]) == Value(s) % Pow10(k)
    decreases k
  {
    ValueBound(s);
    if k == 0 {
      assert s[|s|..] == [];
    } else {
      var front, tail := s[..|s| - 1], s[|s| - k..];
      ValueBound(front);
      LastDigits(front, k - 1);
      assert tail[..k - 1] == front[|front| - (k - 1)..];
      ShiftDigit(Value(front), s[|s| - 1] as int - '0' as int, Pow10(k - 1));
    }
  }

  lemma ModMod(n: nat, m: nat, f: nat)
    requires m > 0 && f > 0
    ensures n % (m * f) % m == n % m
  {
    var q, r := n / (m * f), n % (m * f);
    assert n == q * (m * f) + r;
    var q', r' := r / m, r % m;
    assert r == q' * m + r';
    assert n == (q * f + q') * m + r' by {
      assert q * (m * f) == q * f * m;
      assert (q * f + q') * m == q * f * m + q' * m;
    }
    ModUnique(n, m, q * f + q', r');
  }

  lemma {:induction false} Pow10Split(a: nat, b: nat)
    ensures Pow10(a + b) == Pow10(a) * Pow10(b)
  {
    if a > 0 {
      Pow10Split(a - 1, b);
      assert 10 * Pow10(a - 1) * Pow10(b) == Pow10(a) * Pow10(b);
    }
  }

  // Amounts with a fixed number of fractional digits

  const MAX_PRECISION: nat := 18

  function ZeroDigits(n: nat): (s: string)
    ensures |s| == n && AllDigits(s)
  {
    if n == 0 then [] else ZeroDigits(n - 1) + ['0']
  }

  /** The text of a token amount in units of 10^-18. */
  function ValueString(amount: nat): string {
    FixedPoint(amount, MAX_PRECISION)
  }

  function FixedPoint(amount: nat, places: nat): string {
    var total := Digits(amount);
    if total == "0" then total else PlacePoint(total, places)
  }

  function PlacePoint(total: string, places: nat): string {
    if |total| >= places + 1 then total[..|total| - places] + "." + total[|total| - places..]
    else "0." + ZeroDigits(places - |total|) + total
  }

  /** Reads such a text: an integer part without redundant zeros, a point and
      exactly so many digits; or "0". The digits without the point are the amount. */
  ghost predicate Reads(text: string, places: nat, amount: nat) {
    (text == "0" && amount == 0) || exists point :: ReadsAt(text, places, point, amount)
  }

  ghost predicate ReadsAt(text: string, places: nat, point: nat, amount: nat) {
    && 0 < point && |text| == point + 1 + places && text[point] == '.'
    && AllDigits(text[..point]) && AllDigits(text[point + 1..])
    && (text[0] == '0' ==> point == 1)
    && amount > 0
    && amount == Value(text[..point] + text[point + 1..])
  }

  lemma {:induction false} LeadingZeros(k: nat, s: string)
    requires AllDigits(s)
    ensures Value(ZeroDigits(k) + s) == Value(s) && AllDigits(ZeroDigits(k) + s)
    decreases |s|
  {
    var t := ZeroDigits(k) + s;
    if s == [] {
      assert t == ZeroDigits(k);
      ZerosValue(k);
    } else {
      LeadingZeros(k, s[..|s| - 1]);
      assert t[..|t| - 1] == ZeroDigits(k) + s[..|s| - 1];
    }
  }

  lemma {:induction false} ZerosValue(k: nat)
    ensures Value(ZeroDigits(k)) == 0
  {
    if k > 0 {
      ZerosValue(k - 1);
      assert ZeroDigits(k)[..k - 1] == ZeroDigits(k - 1);
    }
  }

  lemma {:induction false} ValueConcat(a: string, b: string)
    requires AllDigits(a) && AllDigits(b)
    ensures Value(a + b) == Value(a) * Pow10(|b|) + Value(b)
    decreases |b|
  {
    if b == [] {
      assert a + b == a;
    } else {
      var front := b[..|b| - 1];
      ValueConcat(a, front);
      assert (a + b)[..|a + b| - 1] == a + front;
      assert Value(a) * Pow10(|front|) * 10 == Value(a) * Pow10(|b|);
    }
  }

  lemma JoinedReads(whole: string, fraction: string, amount: nat)
    requires whole != [] && AllDigits(whole) && AllDigits(fraction) && (whole[0] == '0' ==> |whole| == 1)
    requires amount > 0 && amount == Value(whole + fraction)
    ensures ReadsAt(whole + "." + fraction, |fraction|, |whole|, amount)
  {
    var text := whole + "." + fraction;
    assert text[..|whole|] == whole && text[|whole|] == '.' && text[|whole| + 1..] == fraction;
  }

  lemma LongText(total: string, point: nat, amount: nat)
    requires AllDigits(total) && 0 < point <= |total| && Value(total) == amount > 0 && total[0] != '0'
    ensures ReadsAt(total[..point] + "." + total[point..], |total| - point, point, amount)
  {
    var whole, fraction := total[..point], total[point..];
    assert AllDigits(whole) && AllDigits(fraction);
    assert whole[0] == total[0];
    assert whole + fraction == total;
    JoinedReads(whole, fraction, amount);
  }

  lemma ShortText(total: string, places: nat, amount: nat)
    requires AllDigits(total) && |total| <= places && Value(total) == amount > 0
    ensures ReadsAt("0." + ZeroDigits(places - |total|) + total, places, 1, amount)
  {
    var padded := ZeroDigits(places - |total|) + total;
    assert "0." + ZeroDigits(places - |total|) + total == "0" + "." + padded;
    LeadingZeros(places - |total|, total);
    LeadingZeros(1, padded);
    assert ZeroDigits(1) == "0";
    JoinedReads("0", padded, amount);
  }

  /** So the parts around the point stand for a whole number and a fraction. */
  lemma ReadsAsNumber(text: string, places: nat, point: nat, amount: nat)
    requires ReadsAt(text, places, point, amount)
    ensures amount == Value(text[..point]) * Pow10(places) + Value(text[point + 1..])
  {
    ValueConcat(text[..point], text[point + 1..]);
  }

  /** The printed text reads back as the amount, in the one canonical form. */
  lemma FixedPointReads(amount: nat, places: nat)
    ensures Reads(FixedPoint(amount, places), places, amount)
  {
    var total := Digits(amount);
    DigitsRoundTrip(amount);
    if amount > 0 {
      TextReads(total, places, amount);
    }
  }

  lemma LongReads(total: string, places: nat, amount: nat)
    requires AllDigits(total) && Value(total) == amount > 0 && |total| > places && total[0] != '0'
    ensures Reads(total[..|total| - places] + "." + total[|total| - places..], places, amount)
  {
    LongText(total, |total| - places, amount);
    ReadsIntro(total[..|total| - places] + "." + total[|total| - places..], places, |total| - places, amount);
  }

  lemma ShortReads(total: string, places: nat, amount: nat)
    requires AllDigits(total) && |total| <= places && Value(total) == amount > 0
    ensures Reads("0." + ZeroDigits(places - |total|) + total, places, amount)
  {
    ShortText(total, places, amount);
    ReadsIntro("0." + ZeroDigits(places - |total|) + total, places, 1, amount);
  }

  lemma TextReads(total: string, places: nat, amount: nat)
    requires total != [] && AllDigits(total) && Value(total) == amount > 0 && total[0] != '0'
    ensures Reads(PlacePoint(total, places), places, amount)
  {
    if |total| >= places + 1 {
      LongReads(total, places, amount);
    } else {
      ShortReads(total, places, amount);
    }
  }

  lemma ReadsIntro(text: string, places: nat, point: nat, amount: nat)
    requires ReadsAt(text, places, point, amount)
    ensures Reads(text, places, amount)
  {
  }

  /** A text reads as at most one amount, so printing is injective. */
  lemma ReadsUnique(text: string, places: nat, a: nat, b: nat)
    requires Reads(text, places, a) && Reads(text, places, b)
    ensures a == b
  {
    if a != 0 && b != 0 {
      var p :| ReadsAt(text, places, p, a);
      var q :| ReadsAt(text, places, q, b);
      assert p == q;
    }
  }

  lemma ValueStringReads(amount: nat)
    ensures Reads(ValueString(amount), 18, amount)
  {
    FixedPointReads(amount, MAX_PRECISION);
  }

  lemma ValueStringInjective(a: nat, b: nat)
    requires ValueString(a) == ValueString(b)
    ensures a == b
  {
    ValueStringReads(a);
    ValueStringReads(b);
    ReadsUnique(ValueString(a), 18, a, b);
  }

  // Whole and fractional parts of a printed amount

  lemma DivideParts(n: nat, m: nat, q: nat, r: nat)
    requires n == q * m + r && r < m
    ensures n / m == q && n % m == r
  {
    ModUnique(n, m, q, r);
    assert n == n / m * m + n % m;
    var x := n / m - q;
    assert x * m == n / m * m - q * m;
    SmallMultiple(x, m);
  }

  /** The part before the point is the amount divided by the unit, the part after
      it the remainder. */
  lemma PrintedParts(text: string, places: nat, point: nat, amount: nat)
    requires ReadsAt(text, places, point, amount)
    ensures Value(text[..point]) == amount / Pow10(places)
    ensures Value(text[point + 1..]) == amount % Pow10(places)
  {
    ReadsAsNumber(text, places, point, amount);
    ValueBound(text[..point]);
    ValueBound(text[point + 1..]);
    DivideParts(amount, Pow10(places), Value(text[..point]), Value(text[point + 1..]));
  }

  lemma {:induction false} ZeroValue(s: string)
    requires AllDigits(s)
    ensures Value(s) == 0 <==> forall i | 0 <= i < |s| :: s[i] == '0'
    decreases |s|
  {
    if s != [] {
      var front := s[..|s| - 1];
      assert AllDigits(front) && forall i | 0 <= i < |front| :: front[i] == s[i];
      ValueBound(front);
      ZeroValue(front);
    }
  }

  /** An amount is a multiple of the unit of a precision exactly when all printed
      digits beyond that many fractional ones are zeros. */
  lemma PrecisePrinted(text: string, places: nat, point: nat, amount: nat, precision: nat)
    requires ReadsAt(text, places, point, amount) && precision <= places
    ensures amount % Pow10(places - precision) == 0 <==> forall i | point + precision < i < |text| :: text[i] == '0'
  {
    var digits, k := text[..point] + text[point + 1..], places - precision;
    var tail := digits[|digits| - k..];
    assert AllDigits(digits);
    LastDigits(digits, k);
    ZeroValue(tail);
    assert tail == text[|text| - k..];
    assert forall i | 0 <= i < k :: tail[i] == text[|text| - k + i];
    assert forall i | |text| - k <= i < |text| :: text[i] == tail[i - (|text| - k)];
  }

  lemma TimesTen(n: nat, m: nat)
    ensures n * (10 * m) / 10 == n * m && n * (10 * m) % 10 == 0
  {
    assert n * (10 * m) == 10 * (n * m);
  }

  lemma {:induction false} DigitsTimes(n: nat, k: nat)
    requires n > 0
    ensures Digits(n * Pow10(k)) == Digits(n) + ZeroDigits(k)
  {
    if k > 0 {
      var m := n * Pow10(k);
      DigitsTimes(n, k - 1);
      TimesTen(n, Pow10(k - 1));
      assert n * Pow10(k - 1) > 0;
      assert Digits(m) == Digits(m / 10) + [DigitChar(m % 10)];
      assert DigitChar(0) == '0';
    }
  }

  lemma {:induction false} ZeroChars(k: nat)
    ensures forall i | 0 <= i < k :: ZeroDigits(k)[i] == '0'
  {
    if k > 0 {
      ZeroChars(k - 1);
    }
  }

  lemma PlaceBefore(whole: string, fraction: string)
    requires whole != [] && whole[0] != '0'
    ensures whole + fraction != "0" && PlacePoint(whole + fraction, |fraction|) == whole + "." + fraction
  {
    var total := whole + fraction;
    assert total[0] == whole[0];
    assert total[..|total| - |fraction|] == whole && total[|total| - |fraction|..] == fraction;
  }

  /** A whole number of units prints as that number, a point and zeros. */
  lemma WholePrints(n: nat, places: nat)
    requires n > 0
    ensures FixedPoint(n * Pow10(places), places) == Digits(n) + "." + ZeroDigits(places)
  {
    DigitsTimes(n, places);
    DigitsRoundTrip(n);
    PlaceBefore(Digits(n), ZeroDigits(places));
  }

  lemma ZerosText()
    ensures ZeroDigits(18) == "000000000000000000"
  {
    ZeroChars(18);
  }

  // Precision checks

  /** Go's remainder takes the sign of the dividend. */
  function GoRem(a: int, b: int): int
    requires b > 0
  {
    if a >= 0 then a % b else -((-a) % b)
  }

  predicate CheckAmountPrecise(amount: int, precision: nat, assetPrecision: nat)
    requires precision <= assetPrecision
  {
    GoRem(amount, Pow10(assetPrecision - precision)) == 0
  }

  predicate CheckTokenAmountPrecise(amount: int, precision: nat, assetPrecision: nat)
    requires precision <= assetPrecision
  {
    CutPrecise(amount, 18, assetPrecision - precision)
  }

  /** Cuts the last characters off the text and reads them back. */
  predicate CutPrecise(amount: int, digits: nat, exponent: nat) {
    TextPrecise(CutText(amount, digits), exponent)
  }

  predicate TextPrecise(decimal: string, exponent: nat) {
    match SetString(decimal)
    case None => false
    case Some(d) => GoRem(d, Pow10(exponent)) == 0
  }

  function CutText(amount: int, digits: nat): string {
    var value := String(amount);
    if |value| <= digits then value else value[|value| - digits..]
  }

  lemma DigitsAreDigits(n: nat)
    ensures AllDigits(Digits(n))
  {
    DigitsRoundTrip(n);
  }

  lemma SetStringDigits(s: string)
    requires s != [] && AllDigits(s)
    ensures SetString(s) == Some(Value(s)) && SetString("-" + s) == Some(-Value(s))
  {
    assert IsDigit(s[0]);
    assert ("-" + s)[1..] == s;
  }

  lemma CutTextIsTail(amount: int, digits: nat)
    requires |String(amount)| > digits
    ensures
      var text := Digits(Magnitude(amount));
      |text| >= digits && CutText(amount, digits) == text[|text| - digits..]
  {
  }

  lemma GoRemZero(a: int, m: nat)
    requires m > 0
    ensures GoRem(a, m) == 0 <==> a % m == 0
  {
    NegativeMultiple(a, m);
  }

  /** A whole text, with or without a sign, is decided by its value. */
  lemma WholePrecise(text: string, exponent: nat)
    requires text != [] && AllDigits(text)
    ensures TextPrecise(text, exponent) <==> Value(text) % Pow10(exponent) == 0
    ensures TextPrecise("-" + text, exponent) <==> Value(text) % Pow10(exponent) == 0
  {
    SetStringDigits(text);
    GoRemZero(Value(text), Pow10(exponent));
    GoRemZero(-Value(text), Pow10(exponent));
    NegativeMultiple(Value(text), Pow10(exponent));
  }

  /** So is a tail of at least `exponent` digits, by the value of the whole text. */
  lemma TailPrecise(text: string, digits: nat, exponent: nat)
    requires AllDigits(text) && exponent <= digits && 0 < digits <= |text|
    ensures TextPrecise(text[|text| - digits..], exponent) <==> Value(text) % Pow10(exponent) == 0
  {
    LastDigits(text, digits);
    WholePrecise(text[|text| - digits..], exponent);
    PowerMod(Value(text), exponent, digits);
  }

  lemma CutWhole(amount: int, digits: nat, exponent: nat)
    requires |String(amount)| <= digits
    ensures CutPrecise(amount, digits, exponent) <==> Value(Digits(Magnitude(amount))) % Pow10(exponent) == 0
  {
    DigitsRoundTrip(Magnitude(amount));
    WholePrecise(Digits(Magnitude(amount)), exponent);
  }

  lemma CutTailOf(amount: int, digits: nat, exponent: nat, text: string)
    requires AllDigits(text) && exponent <= digits && 0 < digits <= |text|
    requires CutText(amount, digits) == text[|text| - digits..]
    ensures CutPrecise(amount, digits, exponent) <==> Value(text) % Pow10(exponent) == 0
  {
    TailPrecise(text, digits, exponent);
  }

  lemma CutTail(amount: int, digits: nat, exponent: nat)
    requires exponent <= digits && 0 < digits < |String(amount)|
    ensures CutPrecise(amount, digits, exponent) <==> Value(Digits(Magnitude(amount))) % Pow10(exponent) == 0
  {
    CutTextIsTail(amount, digits);
    DigitsAreDigits(Magnitude(amount));
    CutTailOf(amount, digits, exponent, Digits(Magnitude(amount)));
  }

  lemma DigitsMultiple(amount: int, m: nat)
    requires m > 0
    ensures Value(Digits(Magnitude(amount))) % m == 0 <==> amount % m == 0
  {
    DigitsRoundTrip(Magnitude(amount));
    NegativeMultiple(amount, m);
  }

  lemma CutPreciseExact(amount: int, digits: nat, exponent: nat)
    requires exponent <= digits && digits > 0
    ensures CutPrecise(amount, digits, exponent) <==> amount % Pow10(exponent) == 0
  {
    DigitsMultiple(amount, Pow10(exponent));
    if |String(amount)| <= digits {
      CutWhole(amount, digits, exponent);
    } else {
      CutTail(amount, digits, exponent);
    }
  }

  lemma PowerMod(n: nat, exponent: nat, digits: nat)
    requires exponent <= digits
    ensures n % Pow10(digits) % Pow10(exponent) == n % Pow10(exponent)
  {
    Pow10Split(exponent, digits - exponent);
    ModMod(n, Pow10(exponent), Pow10(digits - exponent));
  }

  /** The check on eighteen digits decides divisibility of the whole unbounded
      amount, for every amount of either sign. */
  lemma TokenPrecisionExact(amount: int, precision: nat)
    requires precision <= 18
    ensures CheckTokenAmountPrecise(amount, precision, 18) <==> amount % Pow10(18 - precision) == 0
  {
    CutPreciseExact(amount, 18, 18 - precision);
  }

  lemma NegativeMultiple(a: int, m: nat)
    requires m > 0
    ensures a % m == 0 <==> (-a) % m == 0
  {
    if a % m == 0 {
      ModUnique(-a, m, -(a / m), 0);
    }
    if (-a) % m == 0 {
      ModUnique(a, m, -((-a) / m), 0);
    }
  }
}
