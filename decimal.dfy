/**
 * Integers as JavaScript writes and reads them in decimal: `String(n)` (and
 * template literals) for integral numbers, and the string-to-number conversion
 * that `==` applies when a number is compared with a string.
 */
module Decimal {
  import opened Wrappers
  import JsRuntime

  predicate IsDigit(c: char) { '0' <= c <= '9' }

  predicate AllDigits(s: string) {
    forall i :: 0 <= i < |s| ==> IsDigit(s[i])
  }

  function DigitChar(d: nat): (c: char)
    requires d < 10
    ensures IsDigit(c)
  {
    ('0' as int + d) as char
  }

  function DigitValue(c: char): (d: nat)
    requires IsDigit(c)
    ensures d < 10 && DigitChar(d) == c
  {
    c as int - '0' as int
  }

  /** Decimal digits of `n`, most significant first, without leading zeros. */
  function NatToString(n: nat): (s: string)
    ensures |s| >= 1 && AllDigits(s)
    ensures |s| > 1 ==> s[0] != '0'
    decreases n
  {
    if n < 10 then [DigitChar(n)] else NatToString(n / 10) + [DigitChar(n % 10)]
  }

  /** `String(n)` for an integral number: a minus sign, then the digits of |n|. */
  function IntToString(n: int): (s: string)
    ensures |s| >= 1
    ensures n >= 0 ==> AllDigits(s)
    ensures n < 0 ==> s[0] == '-' && |s| >= 2 && AllDigits(s[1..])
  {
    if n < 0 then "-" + NatToString(-n) else NatToString(n)
  }

  /** The value of a string of decimal digits (leading zeros allowed). */
  function DigitsValue(s: string): nat
    requires AllDigits(s)
    decreases |s|
  {
    if |s| == 0 then 0 else DigitsValue(s[..|s| - 1]) * 10 + DigitValue(s[|s| - 1])
  }

  /** Reads back `[-]digits`, the form IntToString writes; anything else is None. */
  function ParseInt(s: string): (r: Option<int>)
    ensures r.Some? ==> |s| >= 1
  {
    if |s| >= 1 && AllDigits(s) then Some(DigitsValue(s))
    else if |s| >= 2 && s[0] == '-' && AllDigits(s[1..]) then Some(-(DigitsValue(s[1..]) as int))
    else None
  }

  lemma {:induction false} DigitsValueOfNatToString(n: nat)
    ensures DigitsValue(NatToString(n)) == n
    decreases n
  {
    var s := NatToString(n);
    if n >= 10 {
      DigitsValueOfNatToString(n / 10);
      assert s[..|s| - 1] == NatToString(n / 10);
    }
  }

  /** ParseInt reads back every integer IntToString writes. */
  lemma ParseIntToString(n: int)
    ensures ParseInt(IntToString(n)) == Some(n)
  {
    if n < 0 {
      DigitsValueOfNatToString(-n);
      assert IntToString(n)[1..] == NatToString(-n);
    } else {
      DigitsValueOfNatToString(n);
    }
  }

  /** IntToString is injective: distinct integers are written differently. */
  lemma IntToStringInjective(m: int, n: int)
    requires IntToString(m) == IntToString(n)
    ensures m == n
  {
    ParseIntToString(m);
    ParseIntToString(n);
  }

  /**
   * JavaScript's string-to-number conversion, for the integer forms: surrounding
   * white space is ignored, the empty string is 0, an optional sign precedes the
   * digits. Every other string is treated as NaN (None).
   */
  function StringToNumber(s: string): (r: Option<int>)
    ensures AllDigits(s) && |s| >= 1 ==> r == Some(DigitsValue(s))
    ensures |s| >= 2 && s[0] == '-' && AllDigits(s[1..]) ==> r == Some(-(DigitsValue(s[1..]) as int))
    ensures (forall i :: 0 <= i < |s| ==> JsRuntime.IsSpace(s[i])) ==> r == Some(0)
  {
    TrimDigits(s);
    TrimSigned(s);
    var t := JsRuntime.Trim(s);
    assert |t| > 0 ==> t[0] == s[|s| - |JsRuntime.TrimStart(s)|];
    TrimmedToNumber(t)
  }

  /** The conversion once the surrounding white space is gone. */
  function TrimmedToNumber(t: string): Option<int> {
    if |t| == 0 then Some(0)
    else if AllDigits(t) then Some(DigitsValue(t))
    else if |t| >= 2 && (t[0] == '+' || t[0] == '-') && AllDigits(t[1..]) then
      Some(if t[0] == '-' then -(DigitsValue(t[1..]) as int) else DigitsValue(t[1..]))
    else None
  }

  /** A string of digits has no space at either end, so trimming keeps it. */
  lemma TrimDigits(s: string)
    ensures AllDigits(s) ==> JsRuntime.Trim(s) == s
  {
    if AllDigits(s) {
      if |s| > 0 {
        assert IsDigit(s[0]) && IsDigit(s[|s| - 1]);
      }
      JsRuntime.TrimUnchanged(s);
    }
  }

  /**
   * `n == v` where `n` is a number and `v` a value read from a string map:
   * false when `v` is undefined, otherwise compares `n` with the number `v` denotes.
   */
  predicate LooseEquals(n: int, v: Option<string>) {
    v.Some? && StringToNumber(v.value) == Some(n)
  }

  /** A minus sign followed by digits has no space at either end. */
  lemma TrimSigned(s: string)
    ensures |s| >= 2 && s[0] == '-' && AllDigits(s[1..]) ==> JsRuntime.Trim(s) == s
  {
    if |s| >= 2 && s[0] == '-' && AllDigits(s[1..]) {
      assert s[|s| - 1] == s[1..][|s| - 2];
      JsRuntime.TrimUnchanged(s);
    }
  }

  /** A number equals the string JavaScript writes for it. */
  lemma LooseEqualsOwnString(n: int)
    ensures LooseEquals(n, Some(IntToString(n)))
  {
    if n >= 0 {
      LooseEqualsNatString(n);
    } else {
      LooseEqualsNegativeString(n);
    }
  }

  lemma LooseEqualsNatString(n: nat)
    ensures StringToNumber(IntToString(n)) == Some(n)
  {
    DigitsValueOfNatToString(n);
  }

  lemma LooseEqualsNegativeString(n: int)
    requires n < 0
    ensures StringToNumber(IntToString(n)) == Some(n)
  {
    var s := IntToString(n);
    assert s[1..] == NatToString(-n);
    DigitsValueOfNatToString(-n);
    assert DigitsValue(s[1..]) == -n;
    assert StringToNumber(s) == Some(-(DigitsValue(s[1..]) as int));
  }
}
