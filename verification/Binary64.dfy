/** The finite values of the 64-bit floating-point format, as exact reals. */
module Binary64 {
  import opened Arithmetic
  import opened Numbers

  ghost function Power(e: int): real
    decreases if e < 0 then -e else e
  {
    if e == 0 then 1.0 else if e > 0 then 2.0 * Power(e - 1) else Power(e + 1) / 2.0
  }

  /** m times two to the e with a 53-bit m: the finite binary64 values. */
  ghost predicate Represents(r: real, m: int, e: int) {
    -0x20_0000_0000_0000 <= m <= 0x20_0000_0000_0000 && -1074 <= e <= 971 && r == m as real * Power(e)
  }

  ghost predicate IsBinary64(r: real) {
    exists m, e :: Represents(r, m, e)
  }

  function Distance(a: real, b: real): real { if a < b then b - a else a - b }

  /** r is a binary64 value nearest to x. */
  ghost predicate Nearest(r: real, x: real) {
    IsBinary64(r) && forall s: real :: IsBinary64(s) ==> Distance(r, x) <= Distance(s, x)
  }

  lemma PowerNext(e: int)
    ensures Power(e + 1) == 2.0 * Power(e)
  {
  }

  lemma {:induction false} PowerIsPow2(k: nat)
    ensures Power(k) == Pow2(k) as real
  {
    if k > 0 { PowerIsPow2(k - 1); }
  }

  lemma {:induction false} PowerInverts(k: nat)
    ensures Power(-(k as int)) * Pow2(k) as real == 1.0
  {
    if k > 0 {
      PowerInverts(k - 1);
      var x, p := Power(-(k as int)), Pow2(k - 1) as real;
      assert Power(1 - k) == 2.0 * x by { PowerNext(-(k as int)); }
      assert x * (2.0 * p) == (2.0 * x) * p;
    }
  }

  /** The mantissa shifted by the exponent; bits shifted out are dropped from the magnitude. */
  function Shifted(m: int, e: int): int {
    if e >= 0 then m * Pow2(e) else if m >= 0 then m / Pow2(-e) else -((-m) / Pow2(-e))
  }

  lemma RealScale(a: real, b: real, x: real)
    requires a <= b && x > 0.0
    ensures a * x <= b * x && (a < b ==> a * x < b * x)
  {
  }

  lemma Between(r: real, p: nat, m: int, q: int)
    requires p > 0 && r * p as real == m as real && q * p <= m < q * p + p
    ensures q as real <= r < q as real + 1.0
  {
    RealProduct(q, p);
    RealProduct(q + 1, p);
    Quotient(r, p as real, q as real, m as real);
  }

  lemma RealProduct(q: int, p: int)
    ensures (q * p) as real == q as real * p as real
  {
  }

  lemma Quotient(r: real, x: real, y: real, m: real)
    requires x > 0.0 && r * x == m && y * x <= m < (y + 1.0) * x
    ensures y <= r < y + 1.0
  {
    if r < y { RealScale(r, y, x); }
    if r >= y + 1.0 { RealScale(y + 1.0, r, x); }
  }

  lemma DivisionBounds(m: nat, p: nat)
    requires p > 0
    ensures m / p * p <= m < m / p * p + p
  {
    assert m == p * (m / p) + m % p;
  }

  /** Whatever mantissa and exponent a number is given by, shifting gives its integer part. */
  lemma ShiftedIsTrunc(r: real, m: int, e: int)
    requires Represents(r, m, e)
    ensures Shifted(m, e) == Trunc(r)
  {
    if e >= 0 {
      PowerIsPow2(e);
      assert r == (m * Pow2(e)) as real;
    } else {
      var p := Pow2(-e);
      var x := Power(e);
      PowerInverts(-e);
      assert m as real * x * p as real == m as real * (x * p as real);
      assert r * p as real == m as real;
      if m >= 0 {
        DivisionBounds(m, p);
        Between(r, p, m, m / p);
      } else {
        DivisionBounds(-m, p);
        assert (-r) * p as real == (-m) as real;
        Between(-r, p, -m, (-m) / p);
        Negative(r, m, p);
      }
    }
  }

  lemma Negative(r: real, m: int, p: nat)
    requires p > 0 && m < 0 && r * p as real == m as real
    ensures r < 0.0
  {
    if r >= 0.0 { RealScale(0.0, r, p as real); }
  }
}
