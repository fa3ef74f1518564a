/**
 * Decimal rendering of numbers, as JavaScript template literals do it
 * (`$${paramCount}` in a SQL placeholder, `/api/todos/${id}` in a URL),
 * with the reading back that shows the rendering loses nothing.
 */
module Decimal {

  predicate IsDigit(c: char) {
    '0' <= c <= '9'
  }

  function DigitChar(d: nat): (c: char)
    requires d < 10
    ensures IsDigit(c) && c as int - '0' as int == d
  {
    ['0', '1', '2', '3', '4', '5', '6', '7', '8', '9'][d]
  }

  function DigitValue(c: char): (d: nat)
    requires IsDigit(c)
    ensures d < 10
  {
    c as int - '0' as int
  }

  /** The decimal digits of `n`, most significant first. */
  function ShowNat(n: nat): (r: string)
    ensures |r| >= 1
  {
    if n < 10 then [DigitChar(n)] else ShowNat(n / 10) + [DigitChar(n % 10)]
  }

  /** The rendering is all digits, with no leading zero. */
  lemma {:induction false} ShowNatDigits(n: nat)
    ensures forall k :: 0 <= k < |ShowNat(n)| ==> IsDigit(ShowNat(n)[k])
    ensures ShowNat(n)[0] == '0' ==> n == 0
  {
    if n >= 10 {
      ShowNatDigits(n / 10);
      assert forall k :: 0 <= k < |ShowNat(n)| - 1 ==> ShowNat(n)[k] == ShowNat(n / 10)[k];
    }
  }

  /** A number rendered as JavaScript renders it: a minus sign before the digits of a negative one. */
  function ShowInt(i: int): (r: string)
    ensures |r| >= 1
    ensures r[0] == '-' <==> i < 0
  {
    if i < 0 then "-" + ShowNat(-i) else ShowNatDigits(i); ShowNat(i)
  }

  /** Reads a string of decimal digits. */
  function ParseNat(s: string): nat
    requires forall k :: 0 <= k < |s| ==> IsDigit(s[k])
  {
    if s == [] then 0 else ParseNat(s[..|s| - 1]) * 10 + DigitValue(s[|s| - 1])
  }

  /** Reading the rendering of `n` gives `n` back. */
  lemma {:induction false} ParseShowNat(n: nat)
    ensures (forall k :: 0 <= k < |ShowNat(n)| ==> IsDigit(ShowNat(n)[k])) && ParseNat(ShowNat(n)) == n
  {
    ShowNatDigits(n);
    if n >= 10 {
      ShowNatDigits(n / 10);
      var s := ShowNat(n);
      assert s[..|s| - 1] == ShowNat(n / 10);
      ParseShowNat(n / 10);
    }
  }

  /** Distinct numbers render as distinct strings. */
  lemma ShowNatInjective(m: nat, n: nat)
    requires ShowNat(m) == ShowNat(n)
    ensures m == n
  {
    ParseShowNat(m);
    ParseShowNat(n);
  }

  /** Distinct integers render as distinct strings: the sign is the first
      character, and the digits after it determine the magnitude. */
  lemma ShowIntInjective(m: int, n: int)
    requires ShowInt(m) == ShowInt(n)
    ensures m == n
  {
    if m < 0 {
      assert ShowInt(m)[1..] == ShowNat(-m);
      assert ShowInt(n)[1..] == ShowNat(-n);
      ShowNatInjective(-m, -n);
    } else {
      ShowNatInjective(m, n);
    }
  }
}
