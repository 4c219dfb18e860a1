/** Rust's `i32::to_string`: the decimal rendering used by `Literal::from(i32)`. */
module Decimal {
  import opened Wrappers

  /** The values of a Rust `i32`. */
  type I32 = x: int | -0x8000_0000 <= x < 0x8000_0000

  predicate IsDigit(c: char) {
    '0' <= c <= '9'
  }

  predicate AllDigits(s: string) {
    forall i :: 0 <= i < |s| ==> IsDigit(s[i])
  }

  function DigitChar(d: nat): (c: char)
    requires d < 10
    ensures IsDigit(c)
  {
    (('0' as int) + d) as char
  }

  function DigitValue(c: char): (d: nat)
    requires IsDigit(c)
    ensures d < 10
    ensures DigitChar(d) == c
  {
    (c as int) - ('0' as int)
  }

  /** Digits of `n`, most significant first, without leading zeros. */
  function NatToString(n: nat): (s: string)
    ensures |s| > 0 && AllDigits(s)
    ensures s[0] == '0' ==> n == 0 && |s| == 1
    decreases n
  {
    if n < 10 then [DigitChar(n)] else NatToString(n / 10) + [DigitChar(n % 10)]
  }

  /** Reads a string of decimal digits back as a number (the reference inverse). */
  function ParseNat(s: string): (n: nat)
    requires AllDigits(s)
    decreases |s|
  {
    if |s| == 0 then 0 else 10 * ParseNat(s[..|s| - 1]) + DigitValue(s[|s| - 1])
  }

  lemma {:induction false} ParseNatToString(n: nat)
    ensures ParseNat(NatToString(n)) == n
    decreases n
  {
    if n >= 10 {
      var s := NatToString(n);
      assert s[..|s| - 1] == NatToString(n / 10);
      ParseNatToString(n / 10);
    }
  }

  /** The digits after an optional leading '-'. */
  function Magnitude(s: string): string {
    if |s| > 0 && s[0] == '-' then s[1..] else s
  }

  /**
   The form `i32::to_string` produces: an optional '-', then digits with no
   leading zero, where zero is "0" and never "-0".
   */
  predicate Canonical(s: string) {
    var m := Magnitude(s);
    |m| > 0 && AllDigits(m) && (m[0] == '0' ==> s == "0")
  }

  /** `i32::to_string`: a '-' for negative values, then the digits of the magnitude. */
  function I32ToString(i: I32): (s: string)
    ensures |s| > 0
    ensures s[0] == '-' <==> i < 0
    ensures Canonical(s)
  {
    if i < 0 then "-" + NatToString(-(i as int)) else NatToString(i)
  }

  /** Reads an optionally signed decimal string; None when it is not one. */
  function ParseInt(s: string): (r: Option<int>)
    ensures r.Some? ==> |s| > 0
  {
    if |s| > 1 && s[0] == '-' && AllDigits(s[1..]) then Some(-(ParseNat(s[1..]) as int))
    else if |s| > 0 && AllDigits(s) then Some(ParseNat(s))
    else None
  }

  lemma ParseIntToString(i: I32)
    ensures ParseInt(I32ToString(i)) == Some(i as int)
  {
    var s := I32ToString(i);
    if i < 0 {
      assert s[1..] == NatToString(-(i as int));
      ParseNatToString(-(i as int));
    } else {
      assert !IsDigit('-');
      ParseNatToString(i);
    }
  }

  function Pow10(k: nat): (p: nat)
    ensures p >= 1
  {
    if k == 0 then 1 else 10 * Pow10(k - 1)
  }

  /** A digit string of length k reads as less than 10^k, and as at least 10^(k-1) when its first digit is not '0'. */
  lemma {:induction false} ParseNatBounds(s: string)
    requires AllDigits(s)
    ensures ParseNat(s) < Pow10(|s|)
    ensures |s| > 0 && s[0] != '0' ==> ParseNat(s) >= Pow10(|s| - 1)
    decreases |s|
  {
    if |s| > 0 {
      var init := s[..|s| - 1];
      ParseNatBounds(init);
      if |s| > 1 {
        assert init[0] == s[0];
      } else {
        assert DigitChar(0) == '0';
      }
    }
  }

  /** Digit strings of the same length that read as the same number are equal. */
  lemma {:induction false} ParseNatSameLength(s: string, t: string)
    requires AllDigits(s) && AllDigits(t) && |s| == |t|
    requires ParseNat(s) == ParseNat(t)
    ensures s == t
    decreases |s|
  {
    if |s| > 0 {
      var k := |s| - 1;
      assert DigitValue(s[k]) == ParseNat(s) % 10 == DigitValue(t[k]);
      ParseNatSameLength(s[..k], t[..k]);
      assert s == s[..k] + [s[k]] && t == t[..k] + [t[k]];
    }
  }

  /** Digit strings without a leading zero that read as the same number are equal. */
  lemma NatDigitsUnique(s: string, t: string)
    requires |s| > 0 && AllDigits(s) && (s[0] == '0' ==> s == "0")
    requires |t| > 0 && AllDigits(t) && (t[0] == '0' ==> t == "0")
    requires ParseNat(s) == ParseNat(t)
    ensures s == t
  {
    ParseNatBounds(s);
    ParseNatBounds(t);
    if s[0] == '0' || t[0] == '0' {
      assert ParseNat("0") == 0;
    } else {
      Pow10Monotone(|s|, |t| - 1);
      Pow10Monotone(|t|, |s| - 1);
      assert |s| == |t|;
      ParseNatSameLength(s, t);
    }
  }

  lemma {:induction false} Pow10Monotone(a: nat, b: nat)
    ensures a <= b ==> Pow10(a) <= Pow10(b)
    decreases b
  {
    if a < b {
      Pow10Monotone(a, b - 1);
    }
  }

  /** A canonical decimal string is determined by the integer it reads as. */
  lemma CanonicalUnique(s: string, t: string)
    requires Canonical(s) && Canonical(t)
    requires ParseInt(s) == ParseInt(t)
    ensures s == t
  {
    var ms, mt := Magnitude(s), Magnitude(t);
    assert !IsDigit('-');
    ParseNatBounds(ms);
    ParseNatBounds(mt);
    if |s| > 0 && s[0] == '-' && |t| > 0 && t[0] == '-' {
      NatDigitsUnique(ms, mt);
      assert s == [s[0]] + ms && t == [t[0]] + mt;
    } else if !(|s| > 0 && s[0] == '-') && !(|t| > 0 && t[0] == '-') {
      NatDigitsUnique(ms, mt);
    }
  }

  /** So `i32::to_string` is the one canonical string that reads as the integer. */
  lemma I32ToStringCharacterized(i: I32, s: string)
    requires Canonical(s) && ParseInt(s) == Some(i as int)
    ensures I32ToString(i) == s
  {
    ParseIntToString(i);
    CanonicalUnique(I32ToString(i), s);
  }

  /** Distinct integers render to distinct strings. */
  lemma I32ToStringInjective(a: I32, b: I32)
    ensures I32ToString(a) == I32ToString(b) ==> a == b
  {
    ParseIntToString(a);
    ParseIntToString(b);
  }
}
