/** The few JavaScript number operations the application relies on,
    written out over Dafny's exact reals and integers: `Math.trunc`, the
    remainder operator `%` (which truncates, unlike Dafny's Euclidean `%`)
    and the decimal rendering of an integer-valued number in a template
    string. */
module Numbers {

  /** `Math.trunc(x)`: rounds toward zero. */
  function Trunc(x: real): int
  {
    if x >= 0.0 then x.Floor else -((-x).Floor)
  }

  /** JavaScript's `x % y` on numbers: the remainder of the quotient
      truncated toward zero, so it takes the sign of the dividend. */
  function JsRem(x: real, y: real): (r: real)
    requires y != 0.0
    ensures y > 0.0 && x >= 0.0 ==> 0.0 <= r < y
    ensures y > 0.0 && x < 0.0 ==> -y < r <= 0.0
  {
    if y > 0.0 then
      RemainderBounds(x, y);
      x - y * (Trunc(x / y) as real)
    else
      x - y * (Trunc(x / y) as real)
  }

  /** `JsRem` is a remainder: the dividend is the divisor times a whole
      number (the truncated quotient) plus `JsRem`. With the bounds of
      `JsRem` this fixes the result for a positive divisor. */
  lemma JsRemQuotient(x: real, y: real) returns (q: int)
    requires y != 0.0
    ensures x == y * (q as real) + JsRem(x, y)
    ensures q == Trunc(x / y)
  {
    q := Trunc(x / y);
  }

  /** The remainder is the divisor times the distance from the quotient to
      its truncation, which is below one and on the dividend's side. */
  lemma RemainderBounds(x: real, y: real)
    requires y > 0.0
    ensures x >= 0.0 ==> 0.0 <= x - y * (Trunc(x / y) as real) < y
    ensures x < 0.0 ==> -y < x - y * (Trunc(x / y) as real) <= 0.0
  {
    var q := x / y;
    var k := Trunc(q) as real;
    QuotientTimesDivisor(x, y);
    if x >= 0.0 {
      WindowAbove(x, y, q, k);
    } else {
      WindowBelow(x, y, q, k);
    }
  }

  lemma QuotientTimesDivisor(x: real, y: real)
    requires y != 0.0
    ensures y * (x / y) == x
  {
  }

  /** With `x == y * q` and `k` at most one below `q`, `x - y * k` lies in
      `[0, y)`. Division is kept out of this lemma and the next: the solver
      handles the products alone but not together with `x / y`. */
  lemma WindowAbove(x: real, y: real, q: real, k: real)
    requires y > 0.0 && x == y * q && k <= q < k + 1.0
    ensures 0.0 <= x - y * k < y
  {
    var e := q - k;
    assert x - y * k == y * e by {
      assert y * q - y * k == y * (q - k);
    }
    MulSign(y, e);
  }

  /** With `x == y * q` and `k` at most one above `q`, `x - y * k` lies in
      `(-y, 0]`. */
  lemma WindowBelow(x: real, y: real, q: real, k: real)
    requires y > 0.0 && x == y * q && k - 1.0 < q <= k
    ensures -y < x - y * k <= 0.0
  {
    var e := q - k;
    assert x - y * k == y * e by {
      assert y * q - y * k == y * (q - k);
    }
    MulSign(y, e);
  }

  /** Scaling by a positive factor keeps the sign, and keeps a value inside
      (-1, 1) inside (-y, y). */
  lemma MulSign(y: real, e: real)
    requires y > 0.0
    ensures 0.0 <= e ==> 0.0 <= y * e
    ensures e <= 0.0 ==> y * e <= 0.0
    ensures e < 1.0 ==> y * e < y
    ensures -1.0 < e ==> -y < y * e
  {
    if 0.0 <= e { MulLess(y, 0.0, e); }
    if e <= 0.0 { MulLess(y, e, 0.0); }
    if e < 1.0 { MulLess(y, e, 1.0); }
    if -1.0 < e { MulLess(y, -1.0, e); }
  }

  /** A positive factor keeps the order. */
  lemma MulLess(y: real, a: real, b: real)
    requires y > 0.0 && a <= b
    ensures y * a <= y * b
    ensures a < b ==> y * a < y * b
  {
  }

  predicate IsDigit(c: char)
  {
    '0' <= c <= '9'
  }

  function DigitChar(d: nat): (c: char)
    requires d < 10
    ensures IsDigit(c)
  {
    ('0' as int + d) as char
  }

  function DigitValue(c: char): nat
    requires IsDigit(c)
  {
    c as int - '0' as int
  }

  /** Decimal digits of `n`, most significant first, without leading zeros. */
  function DigitString(n: nat): (s: string)
    ensures |s| > 0
    ensures forall i :: 0 <= i < |s| ==> IsDigit(s[i])
    ensures s[0] == '0' <==> n == 0
  {
    if n < 10 then [DigitChar(n)] else DigitString(n / 10) + [DigitChar(n % 10)]
  }

  /** The value of a string of decimal digits: the reading that DigitString inverts. */
  function DecimalValue(s: string): nat
    requires forall i :: 0 <= i < |s| ==> IsDigit(s[i])
  {
    if s == [] then 0 else 10 * DecimalValue(s[..|s| - 1]) + DigitValue(s[|s| - 1])
  }

  /** Rendering a natural number and reading it back gives the number. */
  lemma {:induction false} DecimalRoundTrip(n: nat)
    ensures DecimalValue(DigitString(n)) == n
  {
    if n >= 10 {
      DecimalRoundTrip(n / 10);
      var s := DigitString(n);
      assert s[..|s| - 1] == DigitString(n / 10);
    }
  }

  /** Two different natural numbers never render to the same digits. */
  lemma DigitStringInjective(m: nat, n: nat)
    requires DigitString(m) == DigitString(n)
    ensures m == n
  {
    DecimalRoundTrip(m);
    DecimalRoundTrip(n);
  }

  /** `${x}` for an integer-valued number `x` of magnitude below 10^21: a
      minus sign for negatives, then the digits of its magnitude. From 10^21
      on JavaScript switches to exponent form ("1e+21"), which is not
      modelled; millisecond timestamps and the duration components stay far
      below that bound. */
  function NumberString(x: int): (s: string)
    ensures |s| > 0
    ensures forall i :: 0 <= i < |s| ==> IsDigit(s[i]) || s[i] == '-'
    ensures s[0] == '-' <==> x < 0
  {
    if x < 0 then "-" + DigitString(-x) else DigitString(x)
  }

  /** Different integers render differently. */
  lemma NumberStringInjective(x: int, y: int)
    requires NumberString(x) == NumberString(y)
    ensures x == y
  {
    if x < 0 && y < 0 {
      assert DigitString(-x) == NumberString(x)[1..] == NumberString(y)[1..] == DigitString(-y);
      DigitStringInjective(-x, -y);
    } else if x >= 0 && y >= 0 {
      DigitStringInjective(x, y);
    }
  }
}
