/** Decimal formatting of integers as Go's fmt verb %d writes them: a minus
    sign for a negative value, then the digits, most significant first,
    with no leading zero. The error messages of the collections and the
    palette are built with it. */
module Fmt {
  /** Every character of s is a decimal digit. */
  predicate IsDigits(s: string)
  {
    forall i :: 0 <= i < |s| ==> '0' <= s[i] <= '9'
  }

  /** The character of the decimal digit d. */
  function DigitChar(d: nat): (c: char)
    requires d < 10
    ensures '0' <= c <= '9' && c as int - '0' as int == d
  {
    ('0' as int + d) as char
  }

  /** The decimal digits of n; only zero itself starts with '0'. */
  function NatString(n: nat): (s: string)
    ensures |s| >= 1 && IsDigits(s)
    ensures s[0] == '0' <==> n == 0
    decreases n
  {
    if n < 10 then [DigitChar(n)] else NatString(n / 10) + [DigitChar(n % 10)]
  }

  /** %d of i: the digits of |i|, after a minus sign when i is negative. */
  function IntString(i: int): (s: string)
    ensures |s| >= 1
    ensures s[0] == '-' <==> i < 0
  {
    if i < 0 then "-" + NatString(-i) else NatString(i)
  }

  /** The value of a string of decimal digits, most significant first. */
  function DigitsValue(s: string): nat
    requires IsDigits(s)
  {
    if s == [] then 0
    else DigitsValue(s[..|s| - 1]) * 10 + (s[|s| - 1] as int - '0' as int)
  }

  /** Reading the digits back gives the number written. */
  lemma {:induction false} NatStringValue(n: nat)
    ensures DigitsValue(NatString(n)) == n
    decreases n
  {
    var s := NatString(n);
    if n < 10 {
      assert s[..|s| - 1] == [];
    } else {
      NatStringValue(n / 10);
      assert s[..|s| - 1] == NatString(n / 10);
    }
  }

  /** Different numbers are written differently, so a message built with
      %d names its number unambiguously. */
  lemma IntStringInjective(a: int, b: int)
    ensures IntString(a) == IntString(b) <==> a == b
  {
    if IntString(a) == IntString(b) {
      SignSplit(a);
      SignSplit(b);
      var x, y := if a < 0 then -a else a, if b < 0 then -b else b;
      assert NatString(x) == NatString(y);
      NatStringValue(x);
      NatStringValue(y);
    }
  }

  /** After the sign, if any, IntString writes the digits of |i|. */
  lemma SignSplit(i: int)
    ensures IntString(i)[(if i < 0 then 1 else 0)..] == NatString(if i < 0 then -i else i)
  {
  }
}
