/** Small helpers shared by the whole model: an optional value, the truncating
    integer division of Java, and the decimal rendering used for section names. */
module Basics {

  datatype Option<+T> = None | Some(value: T)

  function Min(a: int, b: int): int { if a < b then a else b }
  function Max(a: int, b: int): int { if a < b then b else a }

  /** Java's `/` on int: the quotient is truncated toward zero, so it never
      overshoots the true quotient in magnitude and keeps the dividend's sign. */
  function JavaDiv(a: int, b: int): (q: int)
    requires b > 0
    ensures a >= 0 ==> 0 <= q * b <= a < q * b + b
    ensures a < 0 ==> q * b - b < a <= q * b <= 0
  {
    if a >= 0 then
      DivBelow(a, b);
      a / b
    else
      var q := (-a) / b;
      DivBelow(-a, b);
      assert (-q) * b == -(q * b);
      -q
  }

  /** For a non-negative dividend, the Euclidean quotient times the divisor
      lies within one divisor below it. */
  lemma DivBelow(a: int, b: int)
    requires a >= 0 && b > 0
    ensures 0 <= (a / b) * b <= a < (a / b) * b + b
  {
    var q, r := a / b, a % b;
    assert a == q * b + r && 0 <= r < b;
    assert q >= 0;
    assert q * b >= 0 by { if q > 0 { MulAtLeast(q, b); } }
  }

  lemma MulAtLeast(k: int, d: int)
    requires k >= 1 && d > 0
    ensures k * d >= d
  {
    assert k * d == (k - 1) * d + d;
  }

  /** Processing's `max(int[])`: the largest element, and an exception (here
      `None`) for an empty array. */
  function ArrayMax(s: seq<int>): (m: Option<int>)
    ensures m.None? <==> |s| == 0
    ensures m.Some? ==> m.value in s && forall i :: 0 <= i < |s| ==> s[i] <= m.value
  {
    if |s| == 0 then None
    else if |s| == 1 then Some(s[0])
    else
      var rest := ArrayMax(s[1..]);
      assert s[1..][0] in s;
      Some(Max(s[0], rest.value))
  }

  function DigitChar(d: int): char
    requires 0 <= d < 10
  {
    "0123456789"[d]
  }

  function DigitValue(c: char): int
  {
    if '0' <= c <= '9' then (c as int) - ('0' as int) else -1
  }

  /** `str(n)` for a non-negative int: its decimal digits, no leading zeros. */
  function Decimal(n: nat): (s: string)
    ensures |s| >= 1
    ensures forall i :: 0 <= i < |s| ==> '0' <= s[i] <= '9'
    ensures |s| > 1 ==> s[0] != '0'
    decreases n
  {
    if n < 10 then [DigitChar(n)] else Decimal(n / 10) + [DigitChar(n % 10)]
  }

  /** Reads a string of decimal digits back as a number. */
  function ParseDecimal(s: string): int
  {
    if |s| == 0 then 0 else ParseDecimal(s[..|s| - 1]) * 10 + DigitValue(s[|s| - 1])
  }

  lemma DigitRoundTrip(d: int)
    requires 0 <= d < 10
    ensures DigitValue(DigitChar(d)) == d
  {
  }

  /** Reading back the decimal rendering gives the number: `str` is injective. */
  lemma {:induction false} DecimalRoundTrip(n: nat)
    ensures ParseDecimal(Decimal(n)) == n
    decreases n
  {
    if n < 10 {
      DigitRoundTrip(n);
      assert Decimal(n)[..0] == [];
    } else {
      var s := Decimal(n);
      assert s[..|s| - 1] == Decimal(n / 10);
      DigitRoundTrip(n % 10);
      DecimalRoundTrip(n / 10);
    }
  }

  lemma DecimalInjective(a: nat, b: nat)
    requires Decimal(a) == Decimal(b)
    ensures a == b
  {
    DecimalRoundTrip(a);
    DecimalRoundTrip(b);
  }

  /** Processing's `str(int)`: a minus sign for negatives, then the digits. */
  function IntString(i: int): (s: string)
    ensures |s| >= 1
  {
    if i < 0 then "-" + Decimal(-i) else Decimal(i)
  }

  /** `str` on ints is injective, so a dictionary keyed by `str(v)` is keyed
      by v. */
  lemma IntStringInjective(a: int, b: int)
    requires IntString(a) == IntString(b)
    ensures a == b
  {
    assert IntString(a)[0] == '-' <==> a < 0;
    assert IntString(b)[0] == '-' <==> b < 0;
    if a < 0 {
      assert Decimal(-a) == IntString(a)[1..];
      assert Decimal(-b) == IntString(b)[1..];
      DecimalInjective(-a, -b);
    } else {
      DecimalInjective(a, b);
    }
  }
}
