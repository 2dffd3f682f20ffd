/**
 Base-36 numerals, as Go's `big.Int.Text(36)` and JavaScript's `BigInt.toString(36)` write them.
 */
module Numerals {
  import opened Naturals

  function DigitChar(d: nat): char
    requires d < 36
  {
    if d < 10 then '0' + d as char else 'a' + (d - 10) as char
  }

  /** The digits in order. */
  lemma DigitAlphabet(d: nat)
    requires d < 36
    ensures DigitChar(d) == "0123456789abcdefghijklmnopqrstuvwxyz"[d]
  {
  }

  /** The inverse of DigitChar on its range. */
  function DigitValue(c: char): nat {
    if '0' <= c <= '9' then c as int - '0' as int
    else if 'a' <= c <= 'z' then c as int - 'a' as int + 10
    else 0
  }

  lemma DigitRoundTrip(d: nat)
    requires d < 36
    ensures DigitValue(DigitChar(d)) == d
    ensures DigitChar(d) == '0' <==> d == 0
  {
  }

  /** The minimal numeral of `n`. */
  function Numeral(n: nat): (s: string)
    ensures |s| >= 1
  {
    if n < 36 then [DigitChar(n)] else Numeral(n / 36) + [DigitChar(n % 36)]
  }

  /** The number that a string of digits stands for. */
  function Value(s: string): nat {
    if s == "" then 0 else Value(s[..|s| - 1]) * 36 + DigitValue(s[|s| - 1])
  }

  /** 36 to the power `k`. */
  function Pow36(k: nat): (r: nat)
    ensures r > 0
  {
    if k == 0 then 1 else 36 * Pow36(k - 1)
  }

  lemma {:induction false} PowMonotone(j: nat, k: nat)
    requires j <= k
    ensures Pow36(j) <= Pow36(k)
  {
    if j < k { PowMonotone(j, k - 1); }
  }

  // ---- The numeral stands for its number, and is the only minimal one ------------------------

  lemma {:induction false} ValueOfNumeral(n: nat)
    ensures Value(Numeral(n)) == n
  {
    DigitRoundTrip(n % 36);
    if n < 36 {
      assert Numeral(n)[..0] == "";
    } else {
      ValueOfNumeral(n / 36);
      var s := Numeral(n);
      assert s[..|s| - 1] == Numeral(n / 36);
    }
  }

  lemma NumeralInjective(m: nat, n: nat)
    requires Numeral(m) == Numeral(n)
    ensures m == n
  {
    ValueOfNumeral(m);
    ValueOfNumeral(n);
  }

  lemma {:induction false} NoLeadingZero(n: nat)
    ensures Numeral(n)[0] == '0' <==> n == 0
  {
    if n < 36 {
      DigitRoundTrip(n);
    } else {
      NoLeadingZero(n / 36);
    }
  }

  /** The number of digits is the least L with n < 36^L. */
  lemma {:induction false} NumeralLength(n: nat)
    ensures var len := |Numeral(n)|;
            n < Pow36(len) && (n > 0 ==> Pow36(len - 1) <= n)
  {
    if n >= 36 { NumeralLength(n / 36); }
  }

  lemma LengthAtMost(n: nat, len: nat)
    requires len >= 1
    ensures |Numeral(n)| <= len <==> n < Pow36(len)
  {
    NumeralLength(n);
    var k := |Numeral(n)|;
    if k <= len { PowMonotone(k, len); } else { PowMonotone(len, k - 1); }
  }

  // ---- Truncation -------------------------------------------------------------------------

  function Div(n: nat, d: nat): nat
    requires d > 0
  {
    n / d
  }

  /** Dividing by 36 and then by `b` is dividing by their product. */
  lemma DivDiv(n: nat, b: nat)
    requires b > 0
    ensures Div(n / 36, b) == Div(n, 36 * b)
  {
    DivideTwice(n, 36, b);
  }

  lemma PrefixOfRest(n: nat, k: nat)
    requires 1 <= k < |Numeral(n)|
    ensures |Numeral(n / 36)| == |Numeral(n)| - 1 && Numeral(n)[..k] == Numeral(n / 36)[..k]
  {
  }

  /** The first `k` of the digits are the numeral of the number divided by 36^(dropped digits). */
  lemma {:induction false} NumeralPrefix(n: nat, k: nat)
    requires 1 <= k <= |Numeral(n)|
    ensures Numeral(n)[..k] == Numeral(Div(n, Pow36(|Numeral(n)| - k)))
  {
    var s := Numeral(n);
    if k < |s| {
      var dropped := |s| - 1 - k;
      PrefixOfRest(n, k);
      NumeralPrefix(n / 36, k);
      DivDiv(n, Pow36(dropped));
      assert Pow36(|s| - k) == 36 * Pow36(dropped);
    } else {
      assert s[..k] == s;
    }
  }
}
