/** How the components turn numbers into text: a JavaScript template literal
    `${n}` renders a nonnegative integer below 10^21 as its decimal digits, with
    no leading zeros. The parser DecimalValue is the partner used to show the rendering
    loses no information. */
module Text {

  predicate IsDigit(c: char) {
    '0' <= c <= '9'
  }

  predicate IsDigits(s: string) {
    forall i :: 0 <= i < |s| ==> IsDigit(s[i])
  }

  function DigitChar(d: nat): (c: char)
    requires d < 10
    ensures IsDigit(c)
    ensures (c as int) - ('0' as int) == d
  {
    (('0' as int) + d) as char
  }

  /** Decimal digits of n, most significant first. */
  function NatToDecimal(n: nat): (s: string)
    ensures |s| >= 1 && IsDigits(s)
    ensures s[0] == '0' ==> n == 0
    decreases n
  {
    if n < 10 then [DigitChar(n)] else NatToDecimal(n / 10) + [DigitChar(n % 10)]
  }

  /** The value of a string of decimal digits. */
  function DecimalValue(s: string): nat
    requires IsDigits(s)
  {
    if s == [] then 0
    else DecimalValue(s[..|s| - 1]) * 10 + ((s[|s| - 1] as int) - ('0' as int))
  }

  lemma {:induction false} DecimalRoundTrip(n: nat)
    ensures DecimalValue(NatToDecimal(n)) == n
    decreases n
  {
    if n >= 10 {
      var s := NatToDecimal(n);
      assert s[..|s| - 1] == NatToDecimal(n / 10);
      DecimalRoundTrip(n / 10);
    }
  }

  lemma NatToDecimalInjective(a: nat, b: nat)
    requires NatToDecimal(a) == NatToDecimal(b)
    ensures a == b
  {
    DecimalRoundTrip(a);
    DecimalRoundTrip(b);
  }

  /** Two strings that each consist of a prefix free of c, then c, then a rest,
      are equal only if their prefixes and their rests are. */
  lemma SplitAtSeparator(a: string, r: string, b: string, s: string, c: char)
    requires c !in a && c !in b
    requires a + [c] + r == b + [c] + s
    ensures a == b && r == s
  {
    var u := a + [c] + r;
    assert u[|a|] == c;
    assert (b + [c] + s)[|b|] == c;
    assert a == u[..|a|] == b;
    assert r == u[|a| + 1..] == s;
  }
}
