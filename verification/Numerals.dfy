/** Decimal and hexadecimal numerals, printed and read back. */
module Numerals {
  import opened Wrappers

  function DigitChar(d: nat): char
    requires d < 16
  {
    "0123456789abcdef"[d]
  }

  function DigitValue(c: char): Option<nat> {
    if '0' <= c <= '9' then Some((c - '0') as nat)
    else if 'a' <= c <= 'f' then Some((c - 'a') as nat + 10)
    else if 'A' <= c <= 'F' then Some((c - 'A') as nat + 10)
    else None
  }

  lemma DigitRoundTrip(d: nat)
    requires d < 16
    ensures DigitValue(DigitChar(d)) == Some(d)
  {
  }

  /** The digits in their order: ten figures, then six small letters. */
  lemma DigitsInOrder(d: nat)
    requires d < 16
    ensures DigitChar(d) == if d < 10 then '0' + d as char else 'a' + (d - 10) as char
  {
  }

  /** Value of a digit string in a radix; None if a character is no digit. */
  function Numeral(s: string, radix: nat): Option<nat>
    requires 2 <= radix <= 16
    decreases |s|
  {
    if s == [] then Some(0)
    else
      var high, low := Numeral(s[..|s| - 1], radix), DigitValue(s[|s| - 1]);
      if high.Some? && low.Some? && low.value < radix then Some(high.value * radix + low.value) else None
  }

  function Decimal(n: nat): (s: string)
    ensures |s| > 0
  {
    if n < 10 then [DigitChar(n)] else Decimal(n / 10) + [DigitChar(n % 10)]
  }

  /** Lower-case hexadecimal, zero-padded to `width` digits. */
  function Hex(n: nat, width: nat): (s: string)
    ensures |s| == width
    decreases width
  {
    if width == 0 then "" else Hex(n / 16, width - 1) + [DigitChar(n % 16)]
  }

  function Pow16(w: nat): nat {
    if w == 0 then 1 else 16 * Pow16(w - 1)
  }

  lemma NumeralSnoc(s: string, d: nat, radix: nat, n: nat)
    requires 2 <= radix <= 16 && d < radix && Numeral(s, radix) == Some(n)
    ensures Numeral(s + [DigitChar(d)], radix) == Some(n * radix + d)
  {
    DigitRoundTrip(d);
    assert (s + [DigitChar(d)])[..|s|] == s;
  }

  ghost predicate Digits(s: string, radix: nat) {
    forall i :: 0 <= i < |s| ==> DigitValue(s[i]).Some? && DigitValue(s[i]).value < radix
  }

  lemma DigitsSnoc(s: string, d: nat, radix: nat)
    requires Digits(s, radix) && d < radix <= 16
    ensures Digits(s + [DigitChar(d)], radix)
  {
    DigitRoundTrip(d);
  }

  lemma {:induction false} DecimalRoundTrip(n: nat)
    ensures Numeral(Decimal(n), 10) == Some(n) && Digits(Decimal(n), 10)
    decreases n
  {
    hide Numeral, DigitChar, DigitValue, Digits;
    if n < 10 {
      NumeralEmpty();
      NumeralSnoc([], n, 10, 0);
      DigitsSnoc([], n, 10);
      assert [] + [DigitChar(n)] == [DigitChar(n)];
    } else {
      DecimalRoundTrip(n / 10);
      NumeralSnoc(Decimal(n / 10), n % 10, 10, n / 10);
      DigitsSnoc(Decimal(n / 10), n % 10, 10);
    }
  }

  lemma NumeralEmpty()
    ensures Numeral([], 10) == Some(0) && Numeral([], 16) == Some(0) && Digits([], 10) && Digits([], 16)
  {
  }

  lemma {:induction false} HexRoundTrip(n: nat, w: nat)
    requires n < Pow16(w)
    ensures Numeral(Hex(n, w), 16) == Some(n) && Digits(Hex(n, w), 16)
    decreases w
  {
    hide Numeral, DigitChar, DigitValue, Digits;
    NumeralEmpty();
    if w > 0 {
      HexRoundTrip(n / 16, w - 1);
      NumeralSnoc(Hex(n / 16, w - 1), n % 16, 16, n / 16);
      DigitsSnoc(Hex(n / 16, w - 1), n % 16, 16);
    }
  }

  // ---- What is read as a number ---------------------------------------------------

  function Zeros(z: nat): (s: string)
    ensures |s| == z && forall i :: 0 <= i < z ==> s[i] == '0'
  {
    seq(z, _ => '0')
  }

  /** Small letters for capital hexadecimal digits. */
  function Lower(s: string): (r: string)
    ensures |r| == |s|
    ensures forall i :: 0 <= i < |s| ==> r[i] == LowerDigit(s[i])
  {
    seq(|s|, i requires 0 <= i < |s| => LowerDigit(s[i]))
  }

  function LowerDigit(c: char): char {
    if 'A' <= c <= 'F' then 'a' + (c - 'A') else c
  }

  lemma DigitIs(c: char, d: nat)
    requires d < 16
    ensures DigitValue(c) == Some(d) <==> LowerDigit(c) == DigitChar(d)
    ensures d < 10 ==> (DigitValue(c) == Some(d) <==> c == DigitChar(d))
  {
  }

  lemma {:induction false} LeadingZeros(z: nat, s: string, radix: nat)
    requires 2 <= radix <= 16
    ensures Numeral(Zeros(z) + s, radix) == Numeral(s, radix)
    decreases z + |s|
  {
    if s != [] {
      var cut := s[..|s| - 1];
      LeadingZeros(z, cut, radix);
      assert (Zeros(z) + s)[..z + |s| - 1] == Zeros(z) + cut;
    } else if z > 0 {
      LeadingZeros(z - 1, s, radix);
      assert (Zeros(z) + s)[..z - 1] == Zeros(z - 1) + s;
    }
  }

  /** A decimal numeral is read as `n` exactly if it is that of `n` after any zeros. */
  lemma {:induction false} ReadsDecimal(s: string, n: nat)
    requires s != []
    ensures Numeral(s, 10) == Some(n) <==> exists z: nat :: s == Zeros(z) + Decimal(n)
  {
    if z: nat :| s == Zeros(z) + Decimal(n) {
      DecimalRoundTrip(n);
      LeadingZeros(z, Decimal(n), 10);
    }
    if Numeral(s, 10) == Some(n) {
      var z := DecimalAfterZeros(s, n);
    }
  }

  lemma LastDigit(s: string, n: nat, radix: nat)
    requires s != [] && (radix == 10 || radix == 16)
    ensures Numeral(s, radix) == Some(n) <==>
            Numeral(s[..|s| - 1], radix) == Some(n / radix) && DigitValue(s[|s| - 1]) == Some(n % radix)
  {
    hide DigitValue;
    var high, low := Numeral(s[..|s| - 1], radix), DigitValue(s[|s| - 1]);
    if radix == 10 {
      assert high.Some? && low.Some? && low.value < 10 ==> (high.value * 10 + low.value == n <==> high.value == n / 10 && low.value == n % 10);
    } else {
      assert high.Some? && low.Some? && low.value < 16 ==> (high.value * 16 + low.value == n <==> high.value == n / 16 && low.value == n % 16);
    }
  }

  lemma {:induction false} DecimalAfterZeros(s: string, n: nat) returns (z: nat)
    requires s != [] && Numeral(s, 10) == Some(n)
    ensures s == Zeros(z) + Decimal(n)
    decreases |s|
  {
    hide Numeral, DigitValue, DigitChar;
    var cut, c := s[..|s| - 1], s[|s| - 1];
    assert s == cut + [c];
    LastDigit(s, n, 10);
    DigitIs(c, n % 10);
    if cut == [] {
      NumeralEmpty();
      z := 0;
    } else {
      z := DecimalAfterZeros(cut, n / 10);
      if n < 10 {
        DigitIs('0', 0);
        FirstDigit();
        assert cut == Zeros(z + 1);
        z := z + 1;
      }
    }
  }

  lemma FirstDigit()
    ensures DigitChar(0) == '0'
  {
  }

  /** A hexadecimal numeral is read as `n` exactly if it is that of `n` in as many digits,
      in capitals or not. */
  lemma {:induction false} ReadsHex(s: string, n: nat)
    ensures Numeral(s, 16) == Some(n) <==> n < Pow16(|s|) && Lower(s) == Hex(n, |s|)
    decreases |s|
  {
    hide Numeral, DigitValue, DigitChar, LowerDigit;
    if s == [] {
      NumeralEmpty();
    } else {
      var k := |s| - 1;
      var cut, c := s[..k], s[k];
      LastDigit(s, n, 16);
      ReadsHex(cut, n / 16);
      DigitIs(c, n % 16);
      var low, hex := Lower(s), Hex(n, |s|);
      assert low[..k] == Lower(cut) && low[k] == LowerDigit(c);
      assert hex[..k] == Hex(n / 16, k) && hex[k] == DigitChar(n % 16);
      assert low == hex <==> low[..k] == hex[..k] && low[k] == hex[k] by {
        assert low == low[..k] + [low[k]] && hex == hex[..k] + [hex[k]];
      }
    }
  }

  lemma {:induction false} OnlyDigits(s: string, radix: nat)
    requires 2 <= radix <= 16 && Numeral(s, radix).Some?
    ensures Digits(s, radix)
    decreases |s|
  {
    if s != [] {
      OnlyDigits(s[..|s| - 1], radix);
    }
  }
}
