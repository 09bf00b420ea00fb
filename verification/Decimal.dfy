/** Unsigned decimal numerals: `%d` formatting and `strconv.ParseUint(s, 10, bits)`. */
module Decimal {

  type u16 = n: nat | n < 0x1_0000
  type u32 = n: nat | n < 0x1_0000_0000

  predicate IsDigit(c: char) { '0' <= c <= '9' }

  predicate AllDigits(s: string) { forall i | 0 <= i < |s| :: IsDigit(s[i]) }

  function Digit(d: nat): (c: char)
    requires d < 10
    ensures IsDigit(c) && c as int - '0' as int == d
  {
    ('0' as int + d) as char
  }

  /** `%d` */
  function Dec(n: nat): (s: string)
    ensures s != [] && AllDigits(s)
    ensures Value(s) == n
  {
    if n < 10 then [Digit(n)]
    else
      var s := Dec(n / 10) + [Digit(n % 10)];
      assert s[..|s| - 1] == Dec(n / 10);
      s
  }

  /** The number a digit string denotes; leading zeros are allowed. */
  function Value(s: string): (n: nat)
    requires AllDigits(s)
  {
    if s == [] then 0
    else 10 * Value(s[..|s| - 1]) + (s[|s| - 1] as int - '0' as int)
  }

  datatype Parsed = Number(n: nat) | Bad

  /** `strconv.ParseUint` with `limit == 2^bits`. */
  function ParseUint(s: string, limit: nat): (r: Parsed)
    ensures r.Number? ==> r.n < limit
  {
    if s != [] && AllDigits(s) && Value(s) < limit then Number(Value(s)) else Bad
  }

  lemma DecInjective(a: nat, b: nat)
    requires Dec(a) == Dec(b)
    ensures a == b
  {
    assert Value(Dec(a)) == a;
  }

  /** Only zero is written with a leading zero. */
  lemma {:induction false} DecLeadingZero(n: nat)
    ensures Dec(n)[0] == '0' <==> n == 0
  {
    if n >= 10 { DecLeadingZero(n / 10); }
  }

  lemma {:induction false} DecLengthMonotone(a: nat, b: nat)
    requires a <= b
    ensures |Dec(a)| <= |Dec(b)|
  {
    if a >= 10 { DecLengthMonotone(a / 10, b / 10); }
  }

  lemma DigitsExclude(s: string, c: char)
    requires AllDigits(s) && !IsDigit(c)
    ensures c !in s
  {}
}
