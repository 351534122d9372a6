/** How JavaScript renders an integral `number` when it is concatenated to a
    string (`" Line: " + location.line`), and a reader that inverts it. */
module Decimal {
  import opened Wrappers

  predicate IsDigit(c: char) {
    '0' <= c <= '9'
  }

  predicate AllDigits(s: string) {
    forall i :: 0 <= i < |s| ==> IsDigit(s[i])
  }

  function DigitChar(d: nat): (c: char)
    requires d < 10
    ensures IsDigit(c) && c as int - '0' as int == d
  {
    ('0' as int + d) as char
  }

  /** The decimal digits of `n`, most significant first, without leading zeros. */
  function NatDigits(n: nat): (s: string)
    ensures |s| >= 1 && AllDigits(s)
    ensures |s| > 1 ==> s[0] != '0'
    decreases n
  {
    if n < 10 then [DigitChar(n)] else NatDigits(n / 10) + [DigitChar(n % 10)]
  }

  /** The value of a string of decimal digits. */
  function DigitsValue(s: string): nat
    requires AllDigits(s)
  {
    if s == [] then 0
    else DigitsValue(s[..|s| - 1]) * 10 + (s[|s| - 1] as int - '0' as int)
  }

  /** `String(x)` for an integral number `x`: an optional minus sign and the
      digits of its magnitude. */
  function NumberToString(x: int): (s: string)
    ensures |s| >= 1
    ensures forall i :: 0 <= i < |s| ==> s[i] == '-' || IsDigit(s[i])
    ensures s[0] == '-' <==> x < 0
    ensures x < 0 ==> |s| >= 2 && AllDigits(s[1..]) && (|s| > 2 ==> s[1] != '0')
    ensures x >= 0 ==> AllDigits(s) && (|s| > 1 ==> s[0] != '0')
  {
    if x < 0 then "-" + NatDigits(-x) else NatDigits(x)
  }

  /** Reads an optionally signed decimal integer occupying all of `s`. */
  function ParseNumber(s: string): Option<int> {
    if |s| >= 2 && s[0] == '-' && AllDigits(s[1..]) then Some(-(DigitsValue(s[1..]) as int))
    else if |s| >= 1 && AllDigits(s) then Some(DigitsValue(s))
    else None
  }

  lemma {:induction false} DigitsValueOfNatDigits(n: nat)
    ensures DigitsValue(NatDigits(n)) == n
    decreases n
  {
    if n >= 10 {
      var s := NatDigits(n);
      DigitsValueOfNatDigits(n / 10);
      assert s[..|s| - 1] == NatDigits(n / 10);
    }
  }

  /** Reading back what `NumberToString` wrote gives the number again. */
  lemma NumberRoundTrip(x: int)
    ensures ParseNumber(NumberToString(x)) == Some(x)
  {
    var s := NumberToString(x);
    if x < 0 {
      assert s[1..] == NatDigits(-x);
      DigitsValueOfNatDigits(-x);
    } else {
      DigitsValueOfNatDigits(x);
    }
  }
}
