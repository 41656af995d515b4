/** Facts about products, quotients and powers of two that the solver does not find by itself. */
module Arithmetic {

  function Max(a: nat, b: nat): nat { if a < b then b else a }

  function Abs(n: int): nat { if n < 0 then -n else n }

  function Pow2(k: nat): (p: nat)
    ensures p > 0
  {
    if k == 0 then 1 else 2 * Pow2(k - 1)
  }

  lemma {:induction false} Pow2Grows(a: nat, b: nat)
    requires a <= b
    ensures Pow2(a) <= Pow2(b) && (a < b ==> 2 * Pow2(a) <= Pow2(b))
    decreases b
  {
    if a < b { Pow2Grows(a, b - 1); }
  }

  lemma {:induction false} Pow2Adds(a: nat, b: nat)
    ensures Pow2(a + b) == Pow2(a) * Pow2(b)
    decreases a
  {
    if a > 0 {
      Pow2Adds(a - 1, b);
      Regroup(2, Pow2(a - 1), Pow2(b));
    }
  }

  lemma Regroup(x: int, y: int, z: int)
    ensures x * (y * z) == (x * y) * z
  {
  }

  lemma ScaleWeak(x: nat, y: nat, p: nat)
    requires x <= y
    ensures x * p <= y * p
  {
  }

  lemma ScaleOrder(x: nat, y: nat, p: nat)
    requires x < y && p > 0
    ensures x * p < y * p
  {
  }

  lemma AbsProduct(a: int, b: int)
    ensures Abs(a * b) == Abs(a) * Abs(b)
  {
    if a < 0 {
      if b < 0 { assert a * b == (-a) * (-b); NatProduct(-a, -b); }
      else { assert a * b == -((-a) * b); NatProduct(-a, b); }
    } else {
      if b < 0 { assert a * b == -(a * (-b)); NatProduct(a, -b); }
      else { NatProduct(a, b); }
    }
  }

  lemma NatProduct(a: nat, b: nat)
    ensures a * b >= 0
  {
  }

  lemma LargeMultiple(q: int, n: nat, p: nat)
    requires Abs(q) > n && p > 0
    ensures Abs(p * q) >= n + p
  {
    AbsProduct(p, q);
    ScaleWeak(n + 1, Abs(q), p);
    ScaleWeak(1, p, n);
    assert (n + 1) * p == p * n + p;
  }

  /** The quotient and the remainder are the only ones of their kind. */
  lemma DivisionUnique(x: int, p: nat, q: int, r: nat)
    requires r < p && x == p * q + r
    ensures x / p == q && x % p == r
  {
    var d := x / p - q;
    assert x == p * (x / p) + x % p;
    assert p * d == r - x % p by { assert p * (x / p) - p * q == p * d; }
    if d != 0 { LargeMultiple(d, 0, p); }
  }

  /** Dividing twice is dividing by the product. */
  lemma DivideTwice(v: nat, b: nat, p: nat)
    requires b > 0 && p > 0
    ensures (v / b) / p == v / (b * p)
  {
    var q, r := v / b, v % b;
    var d, m := q / p, q % p;
    assert q == p * d + m;
    assert v == b * q + r;
    assert b * (p * d + m) == (b * p) * d + b * m by { Regroup(b, p, d); }
    ScaleWeak(m, p - 1, b);
    assert (p - 1) * b == b * p - b;
    DivisionUnique(v, b * p, d, b * m + r);
  }

  lemma ProductAtLeast(a: int, b: int, p: nat, q: nat)
    requires Abs(a) >= p && Abs(b) >= q
    ensures Abs(a * b) >= p * q
  {
    AbsProduct(a, b);
    ScaleWeak(p, Abs(a), Abs(b));
    ScaleWeak(q, Abs(b), p);
  }
}
