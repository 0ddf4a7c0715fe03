/** ASCII decimal digit strings: their value, the canonical rendering of a natural
    number, and the zero-padded fixed-width rendering that strftime uses. */
module Decimal {

  predicate IsDigit(ch: char) {
    '0' <= ch <= '9'
  }

  predicate AllDigits(s: string) {
    forall i :: 0 <= i < |s| ==> IsDigit(s[i])
  }

  function DigitValue(ch: char): (d: nat)
    requires IsDigit(ch)
    ensures d < 10
  {
    ch as int - '0' as int
  }

  function DigitChar(d: nat): (ch: char)
    requires d < 10
    ensures IsDigit(ch) && DigitValue(ch) == d
  {
    ('0' as int + d) as char
  }

  function Pow10(n: nat): (p: nat)
    ensures p >= 1
  {
    if n == 0 then 1 else 10 * Pow10(n - 1)
  }

  /** The number a string of decimal digits denotes, most significant digit first. */
  function Value(s: string): (v: nat)
    requires AllDigits(s)
    ensures v < Pow10(|s|)
  {
    if s == [] then 0 else 10 * Value(s[..|s| - 1]) + DigitValue(s[|s| - 1])
  }

  /** The canonical decimal rendering of `n`: no leading zeros, "0" for zero. */
  function ShowNat(n: nat): (s: string)
    ensures |s| > 0 && AllDigits(s)
    ensures |s| > 1 ==> s[0] != '0'
  {
    if n < 10 then [DigitChar(n)] else ShowNat(n / 10) + [DigitChar(n % 10)]
  }

  /** The last `width` decimal digits of `n`, padded on the left with zeros. */
  function Fixed(n: nat, width: nat): (s: string)
    ensures |s| == width && AllDigits(s)
  {
    if width == 0 then [] else Fixed(n / 10, width - 1) + [DigitChar(n % 10)]
  }

  lemma {:induction false} ValueShowNat(n: nat)
    ensures Value(ShowNat(n)) == n
  {
    var s := ShowNat(n);
    if n >= 10 {
      ValueShowNat(n / 10);
      assert s[..|s| - 1] == ShowNat(n / 10);
    }
  }

  lemma {:induction false} ValueFixed(n: nat, width: nat)
    requires n < Pow10(width)
    ensures Value(Fixed(n, width)) == n
  {
    if width > 0 {
      var s := Fixed(n, width);
      assert n / 10 < Pow10(width - 1);
      ValueFixed(n / 10, width - 1);
      assert s[..|s| - 1] == Fixed(n / 10, width - 1);
    }
  }

  lemma {:induction false} FixedValue(s: string)
    requires AllDigits(s)
    ensures Fixed(Value(s), |s|) == s
  {
    if s != [] {
      var p := s[..|s| - 1];
      var d := DigitValue(s[|s| - 1]);
      var v := Value(s);
      assert v == 10 * Value(p) + d;
      assert v / 10 == Value(p) && v % 10 == d;
      FixedValue(p);
      assert DigitChar(d) == s[|s| - 1];
      assert Fixed(v, |s|) == Fixed(Value(p), |p|) + [DigitChar(d)];
      assert s == p + [s[|s| - 1]];
    }
  }

  predicate AllZeros(z: string) {
    forall i :: 0 <= i < |z| ==> z[i] == '0'
  }

  lemma {:induction false} ValueOfZeros(z: string)
    requires AllZeros(z)
    ensures AllDigits(z) && Value(z) == 0
  {
    if z != [] {
      ValueOfZeros(z[..|z| - 1]);
    }
  }

  /** Zeros in front of a digit string do not change its value. */
  lemma {:induction false} ValueLeadingZeros(z: string, d: string)
    requires AllZeros(z) && AllDigits(d)
    ensures AllDigits(z + d) && Value(z + d) == Value(d)
  {
    ValueOfZeros(z);
    if d == [] {
      assert z + d == z;
    } else {
      var s := z + d;
      assert s[..|s| - 1] == z + d[..|d| - 1];
      ValueLeadingZeros(z, d[..|d| - 1]);
    }
  }
}
