// Decimal numerals, as JavaScript prints and parses non-negative integers, and hexadecimal digits.  A number is
// printed without leading zeros, and parsing reads the longest run of digits at the front, whatever follows it;
// together they are the identity on numbers.  Hexadecimal digits come in both cases and stand for the same
// values, and IsLowerHex holds of the lower case alone.
module Digits {

  function DigitChar(d: nat): char
    requires d < 10
  {
    '0' + d as char
  }

  predicate IsDigit(c: char) {
    '0' <= c <= '9'
  }

  function DigitValue(c: char): (d: nat)
    requires IsDigit(c)
    ensures d < 10
  {
    c as int - '0' as int
  }

  predicate IsLowerHex(c: char) {
    IsDigit(c) || 'a' <= c <= 'f'
  }

  // Hexadecimal digits of either case.
  predicate IsHex(c: char) {
    IsLowerHex(c) || 'A' <= c <= 'F'
  }

  function HexValue(c: char): (d: nat)
    requires IsHex(c)
    ensures d < 16
  {
    if IsDigit(c) then DigitValue(c)
    else if c <= 'F' then c as int - 'A' as int + 10
    else c as int - 'a' as int + 10
  }

  function Decimal(n: nat): (s: string)
    ensures s != [] && forall c <- s :: IsDigit(c)
  {
    if n < 10 then [DigitChar(n)] else Decimal(n / 10) + [DigitChar(n % 10)]
  }

  function ParseDigits(s: string): nat
    requires forall c <- s :: IsDigit(c)
  {
    if s == [] then 0 else 10 * ParseDigits(s[..|s| - 1]) + DigitValue(s[|s| - 1])
  }

  lemma {:induction false} DecimalParses(n: nat)
    ensures ParseDigits(Decimal(n)) == n
  {
    if n >= 10 {
      DecimalParses(n / 10);
      assert Decimal(n)[..|Decimal(n)| - 1] == Decimal(n / 10);
    } else {
      assert Decimal(n)[..0] == [];
    }
  }

  lemma DecimalInjective(m: nat, n: nat)
    requires Decimal(m) == Decimal(n)
    ensures m == n
  {
    DecimalParses(m);
    DecimalParses(n);
  }

  lemma HexDigitsExactly(c: char)
    ensures IsHex(c) <==> c in "0123456789abcdefABCDEF"
    ensures IsLowerHex(c) <==> c in "0123456789abcdef"
  {
    assert forall s: string, t: string :: c in s + t <==> c in s || c in t;
    var digits, lower, upper := "0123456789", "abcdef", "ABCDEF";
    assert "0123456789abcdef" == digits + lower && "0123456789abcdefABCDEF" == digits + lower + upper;
    assert '0' <= c <= '9' ==> digits[c as int - '0' as int] == c;
    assert 'a' <= c <= 'f' ==> lower[c as int - 'a' as int] == c;
    assert 'A' <= c <= 'F' ==> upper[c as int - 'A' as int] == c;
  }
}
